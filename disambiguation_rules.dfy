/**
 * The disambiguation rules of the Java ecosystem: given the consumer's
 * requested value (absent when the consumer has no preference) and the set of
 * values found among the remaining candidates, each rule records at most one
 * closest match. `closestMatch` is called at most once on every path, so the
 * result is an Option.
 *
 * Each rule's reference definition is a preference list: the rule selects the
 * first value of the list that is among the candidates (`FirstPresent`).
 */
module DisambiguationRules {
  import opened Wrappers
  import opened JavaAttributes
  import CompatibilityRules

  /** The first entry of `preferences` that is a candidate, if any. */
  function FirstPresent<T(==)>(preferences: seq<T>, candidates: set<T>): (r: Option<T>)
    ensures r.None? <==> forall i :: 0 <= i < |preferences| ==> preferences[i] !in candidates
    ensures r.Some? ==> r.value in candidates && r.value in preferences
  {
    if preferences == [] then None
    else if preferences[0] in candidates then Some(preferences[0])
    else
      var r := FirstPresent(preferences[1..], candidates);
      assert forall i :: 1 <= i < |preferences| ==> preferences[i] == preferences[1..][i - 1];
      r
  }

  /** An entry that is a candidate, preceded only by entries that are not, is the one selected. */
  lemma {:induction false} FirstPresentIsFirst<T>(preferences: seq<T>, candidates: set<T>, k: nat)
    requires k < |preferences| && preferences[k] in candidates
    requires forall j :: 0 <= j < k ==> preferences[j] !in candidates
    ensures FirstPresent(preferences, candidates) == Some(preferences[k])
  {
    if k > 0 {
      var rest := preferences[1..];
      assert forall j :: 0 <= j < k - 1 ==> rest[j] == preferences[j + 1];
      FirstPresentIsFirst(rest, candidates, k - 1);
    }
  }

  /** One step of `FirstPresent`: the head of the list wins when it is a candidate. */
  lemma FirstPresentCons<T>(head: T, rest: seq<T>, candidates: set<T>)
    ensures FirstPresent([head] + rest, candidates)
         == if head in candidates then Some(head) else FirstPresent(rest, candidates)
  {
    assert ([head] + rest)[1..] == rest;
  }

  /** Dafny's witness for a choice out of a non-empty set. */
  lemma NonEmptyHasMember<T>(s: set<T>) returns (member: T)
    requires s != {}
    ensures member in s
  {
    member :| member in s;
  }

  // ---------------------------------------------------------------------------
  // Preference lists

  function UsagePreferences(consumer: Option<Usage>): seq<Usage> {
    match consumer
    case None => [Usage.JavaRuntimeJars, Usage.JavaRuntime]
    case Some(u) =>
      if u == Usage.JavaRuntime then [Usage.JavaRuntimeJars, Usage.JavaRuntime]
      else if u == Usage.JavaApi then [Usage.JavaApiJars, Usage.JavaApi, Usage.JavaRuntimeJars, Usage.JavaRuntime]
      else [u]
  }

  function CompileViewPreferences(consumer: Option<CompileView>): seq<CompileView> {
    match consumer
    case None => [CompileView.JavaApi]
    case Some(v) => [v]
  }

  function LibraryElementsPreferences(consumer: Option<LibraryElements>): seq<LibraryElements> {
    match consumer
    case None => [LibraryElements.Jar]
    case Some(l) => [l]
  }

  function TargetJvmEnvironmentPreferences(consumer: Option<TargetJvmEnvironment>): seq<TargetJvmEnvironment> {
    match consumer
    case None => [TargetJvmEnvironment.StandardJvm]
    case Some(e) => [e, TargetJvmEnvironment.StandardJvm]
  }

  function BundlingPreferences(consumer: Option<Bundling>): seq<Bundling> {
    match consumer
    case None => [Bundling.External, Bundling.Embedded]
    case Some(b) => if b == Bundling.External then [Bundling.External, Bundling.Embedded] else [b]
  }

  // ---------------------------------------------------------------------------
  // The rules

  function CompileViewDisambiguation(consumer: Option<CompileView>, candidates: set<CompileView>): (r: Option<CompileView>)
    ensures r.Some? ==> r.value in candidates
    ensures r == FirstPresent(CompileViewPreferences(consumer), candidates)
  {
    if consumer.None? then
      if CompileView.JavaApi in candidates then Some(CompileView.JavaApi) else None
    else if consumer.value in candidates then Some(consumer.value)
    else None
  }

  function UsageDisambiguation(consumer: Option<Usage>, candidates: set<Usage>): (r: Option<Usage>)
    ensures r.Some? ==> r.value in candidates
  {
    if consumer.None? then
      if Usage.JavaRuntimeJars in candidates then Some(Usage.JavaRuntimeJars)
      else if Usage.JavaRuntime in candidates then Some(Usage.JavaRuntime)
      else None
    else if Usage.JavaRuntime == consumer.value then
      if Usage.JavaRuntimeJars in candidates then Some(Usage.JavaRuntimeJars)
      else if Usage.JavaRuntime in candidates then Some(Usage.JavaRuntime)
      else None
    else if Usage.JavaApi == consumer.value then
      if Usage.JavaApiJars in candidates then Some(Usage.JavaApiJars)
      else if Usage.JavaApi in candidates then Some(Usage.JavaApi)
      else if Usage.JavaRuntimeJars in candidates then Some(Usage.JavaRuntimeJars)
      else if Usage.JavaRuntime in candidates then Some(Usage.JavaRuntime)
      else None
    else if consumer.value in candidates then Some(consumer.value)
    else None
  }

  function LibraryElementsDisambiguation(consumer: Option<LibraryElements>, candidates: set<LibraryElements>): (r: Option<LibraryElements>)
    ensures r.Some? ==> r.value in candidates
    ensures r == FirstPresent(LibraryElementsPreferences(consumer), candidates)
  {
    if consumer.None? then
      if LibraryElements.Jar in candidates then Some(LibraryElements.Jar) else None
    else if consumer.value in candidates then Some(consumer.value)
    else None
  }

  /**
   * The fallback filters the candidates by the name `standard-jvm` and takes
   * the first; names determine interned values, so at most one candidate has it.
   */
  function TargetJvmEnvironmentDisambiguation(consumer: Option<TargetJvmEnvironment>, candidates: set<TargetJvmEnvironment>): (r: Option<TargetJvmEnvironment>)
    ensures r.Some? ==> r.value in candidates
    ensures r == FirstPresent(TargetJvmEnvironmentPreferences(consumer), candidates)
  {
    if consumer.Some? && consumer.value in candidates then Some(consumer.value)
    else
      var standardJvm := set c | c in candidates && TargetJvmEnvironment.StandardJvm.name == c.name;
      assert standardJvm == if TargetJvmEnvironment.StandardJvm in candidates then {TargetJvmEnvironment.StandardJvm} else {};
      if standardJvm != {} then Some(TargetJvmEnvironment.StandardJvm) else None
  }

  /**
   * The Bundling rule walks the candidate set in its (unspecified) iteration
   * order; `:|` picks the next element. With no preference it returns at the
   * first `external` and otherwise remembers an `embedded` one; with an
   * `external` request and no exact match it returns at the first `embedded`.
   * A missing consumer value is never among the candidates.
   */
  method BundlingDisambiguation(consumer: Option<Bundling>, candidates: set<Bundling>) returns (r: Option<Bundling>)
    ensures r.Some? ==> r.value in candidates
    ensures r == FirstPresent(BundlingPreferences(consumer), candidates)
  {
    if consumer.Some? && consumer.value in candidates {
      return consumer;
    }
    if consumer.None? {
      var embedded: Option<Bundling> := None;
      var remaining := candidates;
      while remaining != {}
        invariant remaining <= candidates
        invariant Bundling.External !in candidates - remaining
        invariant embedded == if Bundling.Embedded in candidates - remaining then Some(Bundling.Embedded) else None
        decreases remaining
      {
        ghost var _ := NonEmptyHasMember(remaining);
        var candidate :| candidate in remaining;
        remaining := remaining - {candidate};
        if Bundling.External.name == candidate.name {
          return Some(candidate);
        } else if Bundling.Embedded.name == candidate.name {
          embedded := Some(candidate);
        }
      }
      return embedded;
    } else {
      if Bundling.External.name == consumer.value.name {
        var remaining := candidates;
        while remaining != {}
          invariant remaining <= candidates
          invariant Bundling.Embedded !in candidates - remaining
          decreases remaining
        {
          ghost var _ := NonEmptyHasMember(remaining);
          var candidate :| candidate in remaining;
          remaining := remaining - {candidate};
          if Bundling.Embedded.name == candidate.name {
            return Some(candidate);
          }
        }
      }
      return None;
    }
  }

  /** `last` is the greatest of `candidates` under natural integer order. */
  ghost predicate IsLast(last: JvmVersion, candidates: set<JvmVersion>) {
    last in candidates && forall c :: c in candidates ==> c <= last
  }

  /**
   * `pickLast(Ordering.natural())` on target JVM versions: the greatest
   * candidate, found by one pass over the set.
   */
  method PickLast(candidates: set<JvmVersion>) returns (r: Option<JvmVersion>)
    ensures r.None? <==> candidates == {}
    ensures r.Some? ==> IsLast(r.value, candidates)
  {
    r := None;
    var remaining := candidates;
    ghost var seen: set<JvmVersion> := {};
    while remaining != {}
      invariant seen + remaining == candidates && seen !! remaining
      invariant r.None? <==> seen == {}
      invariant r.Some? ==> r.value in seen && forall c :: c in seen ==> c <= r.value
      decreases remaining
    {
      ghost var _ := NonEmptyHasMember(remaining);
      var candidate :| candidate in remaining;
      if r.None? || CompatibilityRules.NaturalCompare(candidate, r.value) > 0 {
        r := Some(candidate);
      }
      remaining, seen := remaining - {candidate}, seen + {candidate};
    }
  }

  /** The Usage rule's if-chains select the first present value of its preference list. */
  lemma {:induction false} UsageDisambiguationFollowsPreferences(consumer: Option<Usage>, candidates: set<Usage>)
    ensures UsageDisambiguation(consumer, candidates) == FirstPresent(UsagePreferences(consumer), candidates)
  {
    var runtimeOrder := [Usage.JavaRuntimeJars, Usage.JavaRuntime];
    FirstPresentCons(Usage.JavaRuntime, [], candidates);
    FirstPresentCons(Usage.JavaRuntimeJars, [Usage.JavaRuntime], candidates);
    FirstPresentCons(Usage.JavaApi, runtimeOrder, candidates);
    FirstPresentCons(Usage.JavaApiJars, [Usage.JavaApi] + runtimeOrder, candidates);
    assert [Usage.JavaApiJars] + ([Usage.JavaApi] + runtimeOrder) == UsagePreferences(Some(Usage.JavaApi));
    if consumer.Some? && consumer.value !in {Usage.JavaApi, Usage.JavaRuntime} {
      FirstPresentCons(consumer.value, [], candidates);
    }
  }

  // ---------------------------------------------------------------------------
  // Consequences of the preference lists

  /** A `java-runtime` request takes the runtime jars even when plain `java-runtime` is offered. */
  lemma RuntimeRequestPrefersRuntimeJars(candidates: set<Usage>)
    requires Usage.JavaRuntimeJars in candidates
    ensures UsageDisambiguation(Some(Usage.JavaRuntime), candidates) == Some(Usage.JavaRuntimeJars)
  {
  }

  /** An API request walks api-jars, api, runtime-jars, runtime, in that order. */
  lemma ApiRequestFallsBackToRuntime(candidates: set<Usage>)
    requires Usage.JavaApiJars !in candidates && Usage.JavaApi !in candidates
    ensures UsageDisambiguation(Some(Usage.JavaApi), candidates)
         == if Usage.JavaRuntimeJars in candidates then Some(Usage.JavaRuntimeJars)
            else if Usage.JavaRuntime in candidates then Some(Usage.JavaRuntime)
            else None
  {
  }

  /** Any usage other than `java-api` and `java-runtime` is served by an exact match or not at all. */
  lemma OtherUsageRequestIsExactOnly(requested: Usage, candidates: set<Usage>)
    requires requested != Usage.JavaApi && requested != Usage.JavaRuntime
    ensures UsageDisambiguation(Some(requested), candidates)
         == if requested in candidates then Some(requested) else None
  {
    UsageDisambiguationFollowsPreferences(Some(requested), candidates);
    FirstPresentCons(requested, [], candidates);
  }

  /**
   * Every rule but Usage's selects the requested value when it is a candidate;
   * Bundling's rule is stated through its preference list.
   */
  lemma ExactMatchIsSelected(view: CompileView, elements: LibraryElements, bundling: Bundling, environment: TargetJvmEnvironment,
                             views: set<CompileView>, elementSet: set<LibraryElements>, bundlings: set<Bundling>, environments: set<TargetJvmEnvironment>)
    requires view in views && elements in elementSet && bundling in bundlings && environment in environments
    ensures CompileViewDisambiguation(Some(view), views) == Some(view)
    ensures LibraryElementsDisambiguation(Some(elements), elementSet) == Some(elements)
    ensures FirstPresent(BundlingPreferences(Some(bundling)), bundlings) == Some(bundling)
    ensures TargetJvmEnvironmentDisambiguation(Some(environment), environments) == Some(environment)
  {
  }

  /** The Usage rule is the exception: an API request prefers api-jars over an exact `java-api`. */
  lemma UsageExactMatchCanLose()
    ensures UsageDisambiguation(Some(Usage.JavaApi), {Usage.JavaApi, Usage.JavaApiJars}) == Some(Usage.JavaApiJars)
  {
  }

  /** What each rule falls back to when the consumer has no preference. */
  lemma NoPreferenceDefaults(views: set<CompileView>, elementSet: set<LibraryElements>, bundlings: set<Bundling>)
    ensures CompileViewDisambiguation(None, views)
         == if CompileView.JavaApi in views then Some(CompileView.JavaApi) else None
    ensures LibraryElementsDisambiguation(None, elementSet)
         == if LibraryElements.Jar in elementSet then Some(LibraryElements.Jar) else None
    ensures FirstPresent(BundlingPreferences(None), bundlings)
         == if Bundling.External in bundlings then Some(Bundling.External)
            else if Bundling.Embedded in bundlings then Some(Bundling.Embedded)
            else None
  {
    FirstPresentCons(Bundling.External, [Bundling.Embedded], bundlings);
    FirstPresentCons(Bundling.Embedded, [], bundlings);
  }

  /** Without an exact match the target environment falls back to `standard-jvm`, if offered. */
  lemma EnvironmentFallsBackToStandardJvm(consumer: Option<TargetJvmEnvironment>, environments: set<TargetJvmEnvironment>)
    requires consumer.None? || consumer.value !in environments
    ensures TargetJvmEnvironmentDisambiguation(consumer, environments)
         == if TargetJvmEnvironment.StandardJvm in environments then Some(TargetJvmEnvironment.StandardJvm) else None
  {
    FirstPresentCons(TargetJvmEnvironment.StandardJvm, [], environments);
    if consumer.Some? {
      FirstPresentCons(consumer.value, [TargetJvmEnvironment.StandardJvm], environments);
    }
  }

  /** A shadow jar is selected only when a shadow jar was requested. */
  lemma BundlingNeverFallsBackToShadowed(consumer: Option<Bundling>, bundlings: set<Bundling>)
    requires FirstPresent(BundlingPreferences(consumer), bundlings) == Some(Bundling.Shadowed)
    ensures consumer == Some(Bundling.Shadowed)
  {
    if consumer.None? || consumer.value == Bundling.External {
      FirstPresentCons(Bundling.External, [Bundling.Embedded], bundlings);
      FirstPresentCons(Bundling.Embedded, [], bundlings);
    } else {
      FirstPresentCons(consumer.value, [], bundlings);
    }
  }

  /** An `external` request with no exact match selects the fat jar whenever one is offered. */
  lemma ExternalRequestPrefersEmbedded(bundlings: set<Bundling>)
    requires Bundling.External !in bundlings && Bundling.Embedded in bundlings
    ensures FirstPresent(BundlingPreferences(Some(Bundling.External)), bundlings) == Some(Bundling.Embedded)
  {
    FirstPresentIsFirst(BundlingPreferences(Some(Bundling.External)), bundlings, 1);
  }

  /** `pickLast` determines its result: the greatest candidate is unique. */
  lemma LastIsUnique(a: JvmVersion, b: JvmVersion, candidates: set<JvmVersion>)
    requires IsLast(a, candidates) && IsLast(b, candidates)
    ensures a == b
  {
  }

  /**
   * Among versions that passed the ordered compatibility rule, the greatest is
   * the one closest to the request without exceeding it.
   */
  lemma LastCompatibleIsClosestToRequest(requested: JvmVersion, candidates: set<JvmVersion>, last: JvmVersion)
    requires forall c :: c in candidates ==>
      CompatibilityRules.TargetJvmVersionCompatibility(Some(requested), Some(c)) == Compatible
    requires IsLast(last, candidates)
    ensures last <= requested
    ensures forall c :: c in candidates ==> c <= last
  {
  }

  /** Requesting 11 from variants for 8, 11 and 17: 17 is filtered out and 11 is picked. */
  lemma TargetJvmVersionScenario(last: JvmVersion)
    requires IsLast(last, set v | v in {8, 11, 17} && CompatibilityRules.TargetJvmVersionCompatibility(Some(11), Some(v)) == Compatible)
    ensures last == 11
  {
    var compatible := set v | v in {8, 11, 17} && CompatibilityRules.TargetJvmVersionCompatibility(Some(11), Some(v)) == Compatible;
    assert compatible == {8, 11};
  }
}
