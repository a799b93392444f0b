# Java ecosystem attribute rules

A Dafny model of Gradle's `JavaEcosystemSupport`: the rules the Java ecosystem adds to
the attribute schema. Gradle picks a variant of a dependency for a consumer by comparing
typed attributes. For each attribute a rule chain answers two questions:

- **compatibility**: can the producer's value satisfy the consumer's requested value?
  Every rule here either records `Compatible` or stays silent (`NoOpinion`);
- **disambiguation**: which value should be preferred among several candidate values?
  Every rule here records at most one closest match, always one of the candidates.

The model covers the rules for the six Java attributes (Usage, LibraryElements,
CompileView, Bundling, TargetJvmVersion and TargetJvmEnvironment). It also covers the
global disambiguation precedence and the step that applies a conventional default for
the target JVM version to a configuration's attribute container.

Modules:

- `Wrappers` (`wrappers.dfy`): `Option`, which stands for Java's nullable values.
- `JavaAttributes` (`java_attributes.dfy`): the attribute keys and one datatype per named
  attribute, with the published value names as static constants. Gradle interns named
  values, so equal names mean equal values, and a value is modelled by its name. Target
  JVM versions are integers. The module also holds the verdict type, the `Table` type
  of compatibility tables and the `Accepts` lookup on them.
- `CompatibilityRules` (`compatibility_rules.dfy`): one function per compatibility rule,
  and the four fixed tables. The four named-value rules (CompileView, Usage,
  LibraryElements, Bundling) are proved equal to their table: a verdict is `Compatible`
  exactly when the consumer has no preference or the table lists the pair.
  TargetJvmEnvironment is always compatible. TargetJvmVersion is compatible exactly when
  the consumer has no preference or the producer version does not exceed the requested
  one. Java passes null for a missing value. Every rule except TargetJvmEnvironment
  dereferences the producer value without a null check, so each such rule requires that value only on the paths where its code reads it (the `&&`
  short-circuits are respected).
- `DisambiguationRules` (`disambiguation_rules.dfy`): one member per disambiguation
  rule. The five named-value rules (CompileView, Usage, LibraryElements, Bundling,
  TargetJvmEnvironment) are proved to pick the first candidate from a preference list
  that depends on the consumer value (`FirstPresent`). The Bundling rule iterates over the
  candidate set, so it is a method with loops. Each step takes some candidate, because
  Java's set iteration order is unspecified. `pickLast(Ordering.natural())` for the
  target JVM version is a one-pass loop, proved to return the greatest candidate.
- `JavaEcosystemSupport` (`java_ecosystem_support.dfy`): a mutable `AttributeContainer`
  class holding a map. `ConfigureDefaultTargetPlatform` is proved against the pure
  `WithDefaultTargetPlatform`. The module also holds the precedence list and the ranks
  it gives each attribute.

Two consequences of the code are worth stating on their own:

- For an `external` request with no exact match, the Bundling rule (lines 406-415)
  selects `embedded` whenever it is offered, even when `shadowed` is offered too, and it
  never falls back to `shadowed` (`ExternalRequestPrefersEmbedded`,
  `BundlingNeverFallsBackToShadowed`).
- The Usage, LibraryElements, CompileView and Bundling rules give no opinion when both
  values are equal (`RulesAreSilentOnEqualValues`); the matching framework settles exact
  matches itself.

## Model

| member | source | states |
|---|---|---|
| `CompatibilityRules.CompileViewCompatibility` | subprojects/core/src/main/java/org/gradle/api/internal/artifacts/JavaEcosystemSupport.java:164-181 | absent consumer is compatible; otherwise compatible exactly when a `java-api` request meets a `java-internal` producer; the producer is needed only for a `java-api` request |
| `CompatibilityRules.UsageCompatibility` | subprojects/core/src/main/java/org/gradle/api/internal/artifacts/JavaEcosystemSupport.java:245-271 | absent consumer is compatible; `java-api` accepts exactly `java-api-jars`, `java-runtime-jars` and `java-runtime`; `java-runtime` accepts exactly `java-runtime-jars`; every other pair is no opinion |
| `CompatibilityRules.LibraryElementsCompatibility` | subprojects/core/src/main/java/org/gradle/api/internal/artifacts/JavaEcosystemSupport.java:299-320 | absent consumer is compatible; `classes`, `resources` and `classes+resources` accept `jar`; nothing else is compatible |
| `CompatibilityRules.TargetJvmEnvironmentCompatibility` | subprojects/core/src/main/java/org/gradle/api/internal/artifacts/JavaEcosystemSupport.java:322-331 | compatible for every input, absent values included |
| `CompatibilityRules.BundlingCompatibility` | subprojects/core/src/main/java/org/gradle/api/internal/artifacts/JavaEcosystemSupport.java:351-380 | absent consumer is compatible; `external` accepts `embedded` and `shadowed`; `embedded` accepts `shadowed`; nothing else is compatible |
| `CompatibilityRules.NaturalCompare` | subprojects/core/src/main/java/org/gradle/api/internal/artifacts/JavaEcosystemSupport.java:86 | the natural integer ordering: negative, zero or positive as the first argument is below, equal to or above the second |
| `CompatibilityRules.TargetJvmVersionCompatibility` | subprojects/core/src/main/java/org/gradle/api/internal/artifacts/JavaEcosystemSupport.java:84-88 | absent consumer is compatible; otherwise a producer version is compatible exactly when it does not exceed the requested version |
| `CompatibilityRules.UsageCompatibilityIsNotSymmetric` | subprojects/core/src/main/java/org/gradle/api/internal/artifacts/JavaEcosystemSupport.java:246-269 | (api request, runtime producer) is compatible while (runtime request, api producer) is no opinion |
| `CompatibilityRules.RuntimeRequestAcceptsOnlyRuntimeJars` | subprojects/core/src/main/java/org/gradle/api/internal/artifacts/JavaEcosystemSupport.java:266-268 | a `java-runtime` request is compatible with a producer exactly when the producer is `java-runtime-jars` |
| `CompatibilityRules.RulesAreSilentOnEqualValues` | subprojects/core/src/main/java/org/gradle/api/internal/artifacts/JavaEcosystemSupport.java:164-380 | the Usage, LibraryElements, CompileView and Bundling rules give no opinion when producer and consumer values are equal |
| `CompatibilityRules.TargetJvmVersionCompatibilityIsMonotone` | subprojects/core/src/main/java/org/gradle/api/internal/artifacts/JavaEcosystemSupport.java:86 | a producer version compatible with a request stays compatible with any higher request |
| `DisambiguationRules.CompileViewDisambiguation` | subprojects/core/src/main/java/org/gradle/api/internal/artifacts/JavaEcosystemSupport.java:147-160 | result is a candidate; it is the first candidate of [`java-api`] with no preference, of [requested] otherwise |
| `DisambiguationRules.UsageDisambiguation` | subprojects/core/src/main/java/org/gradle/api/internal/artifacts/JavaEcosystemSupport.java:206-241 | the selected value, if any, is one of the candidates |
| `DisambiguationRules.UsageDisambiguationFollowsPreferences` | subprojects/core/src/main/java/org/gradle/api/internal/artifacts/JavaEcosystemSupport.java:210-239 | the Usage rule picks the first candidate of: runtime-jars, runtime (no preference or `java-runtime`); api-jars, api, runtime-jars, runtime (`java-api`); the requested value (anything else) |
| `DisambiguationRules.LibraryElementsDisambiguation` | subprojects/core/src/main/java/org/gradle/api/internal/artifacts/JavaEcosystemSupport.java:282-295 | result is a candidate; it is the first candidate of [`jar`] with no preference, of [requested] otherwise |
| `DisambiguationRules.TargetJvmEnvironmentDisambiguation` | subprojects/core/src/main/java/org/gradle/api/internal/artifacts/JavaEcosystemSupport.java:338-347 | result is a candidate; it is the first candidate of [requested, `standard-jvm`], or of [`standard-jvm`] with no preference |
| `DisambiguationRules.BundlingDisambiguation` | subprojects/core/src/main/java/org/gradle/api/internal/artifacts/JavaEcosystemSupport.java:385-417 | whatever order the candidate set is walked in, the result is a candidate and is the first candidate of [`external`, `embedded`] (no preference or `external`) or of [requested] (anything else) |
| `DisambiguationRules.PickLast` | subprojects/core/src/main/java/org/gradle/api/internal/artifacts/JavaEcosystemSupport.java:87 | no result exactly when there are no candidates; otherwise the result is a candidate no smaller than any other |
| `DisambiguationRules.RuntimeRequestPrefersRuntimeJars` | subprojects/core/src/main/java/org/gradle/api/internal/artifacts/JavaEcosystemSupport.java:219-225 | a `java-runtime` request selects `java-runtime-jars` whenever it is a candidate, even when `java-runtime` is one too |
| `DisambiguationRules.ApiRequestFallsBackToRuntime` | subprojects/core/src/main/java/org/gradle/api/internal/artifacts/JavaEcosystemSupport.java:226-236 | a `java-api` request with neither api value offered selects runtime-jars, else runtime, else nothing |
| `DisambiguationRules.OtherUsageRequestIsExactOnly` | subprojects/core/src/main/java/org/gradle/api/internal/artifacts/JavaEcosystemSupport.java:237-239 | a usage other than `java-api` and `java-runtime` selects itself when it is a candidate and nothing otherwise |
| `DisambiguationRules.ExactMatchIsSelected` | subprojects/core/src/main/java/org/gradle/api/internal/artifacts/JavaEcosystemSupport.java:147-417 | the CompileView, LibraryElements, Bundling and TargetJvmEnvironment rules select the requested value whenever it is a candidate |
| `DisambiguationRules.UsageExactMatchCanLose` | subprojects/core/src/main/java/org/gradle/api/internal/artifacts/JavaEcosystemSupport.java:226-230 | a `java-api` request offered `java-api` and `java-api-jars` selects `java-api-jars` |
| `DisambiguationRules.NoPreferenceDefaults` | subprojects/core/src/main/java/org/gradle/api/internal/artifacts/JavaEcosystemSupport.java:148-405 | with no preference: CompileView selects `java-api`, LibraryElements `jar`, each if offered; Bundling selects `external` if offered, else `embedded` if offered |
| `DisambiguationRules.EnvironmentFallsBackToStandardJvm` | subprojects/core/src/main/java/org/gradle/api/internal/artifacts/JavaEcosystemSupport.java:339-347 | without an exact match the target environment selects `standard-jvm` if offered and nothing otherwise |
| `DisambiguationRules.BundlingNeverFallsBackToShadowed` | subprojects/core/src/main/java/org/gradle/api/internal/artifacts/JavaEcosystemSupport.java:386-417 | `shadowed` is selected only when `shadowed` itself was requested |
| `DisambiguationRules.ExternalRequestPrefersEmbedded` | subprojects/core/src/main/java/org/gradle/api/internal/artifacts/JavaEcosystemSupport.java:406-415 | an `external` request with no exact match selects `embedded` whenever it is offered, whatever else is offered |
| `DisambiguationRules.LastIsUnique` | subprojects/core/src/main/java/org/gradle/api/internal/artifacts/JavaEcosystemSupport.java:87 | the greatest candidate is unique, so `pickLast` is deterministic |
| `DisambiguationRules.LastCompatibleIsClosestToRequest` | subprojects/core/src/main/java/org/gradle/api/internal/artifacts/JavaEcosystemSupport.java:86-87 | among versions that passed the ordered compatibility rule, the greatest does not exceed the request and no candidate is above it |
| `DisambiguationRules.TargetJvmVersionScenario` | subprojects/core/src/main/java/org/gradle/api/internal/artifacts/JavaEcosystemSupport.java:86-87 | requesting 11 from versions 8, 11 and 17 leaves 8 and 11 compatible, and the greatest of those is 11 |
| `JavaEcosystemSupport.AttributeContainer.SetAttribute` | subprojects/core/src/main/java/org/gradle/api/internal/artifacts/JavaEcosystemSupport.java:80 | stores one well-typed value under its key and changes no other key |
| `JavaEcosystemSupport.WithDefaultTargetPlatform` | subprojects/core/src/main/java/org/gradle/api/internal/artifacts/JavaEcosystemSupport.java:76-82 | the target JVM version is always present afterwards; an existing one is kept, and the contents are then unchanged; a missing one becomes the given major version; no other key is added, removed or changed |
| `JavaEcosystemSupport.ConfigureDefaultTargetPlatform` | subprojects/core/src/main/java/org/gradle/api/internal/artifacts/JavaEcosystemSupport.java:76-82 | updates the container in place to exactly `WithDefaultTargetPlatform` of its old contents, keeping it well typed |
| `JavaEcosystemSupport.DefaultTargetPlatformIsIdempotent` | subprojects/core/src/main/java/org/gradle/api/internal/artifacts/JavaEcosystemSupport.java:79-81 | applying the default a second time, with any version, changes nothing |
| `JavaEcosystemSupport.DefaultTargetPlatformKeepsWellTyped` | subprojects/core/src/main/java/org/gradle/api/internal/artifacts/JavaEcosystemSupport.java:80 | the default keeps each attribute's value of that attribute's type |
| `JavaEcosystemSupport.PrecedenceRanks` | subprojects/core/src/main/java/org/gradle/api/internal/artifacts/JavaEcosystemSupport.java:61-69 | disambiguation order: Category, Usage, CompileView, TargetJvmVersion, LibraryElements, Bundling, TargetJvmEnvironment get ranks 0 to 6 |
| `JavaEcosystemSupport.RankIsPosition` | subprojects/core/src/main/java/org/gradle/api/internal/artifacts/JavaEcosystemSupport.java:61-69 | each listed attribute's rank is its position in the list |
| `JavaEcosystemSupport.CustomAttributesHaveNoRank` | subprojects/core/src/main/java/org/gradle/api/internal/artifacts/JavaEcosystemSupport.java:61-69 | attributes outside the seven standard ones are not in the precedence |
| `JavaEcosystemSupport.PrecedenceHasNoDuplicates` | subprojects/core/src/main/java/org/gradle/api/internal/artifacts/JavaEcosystemSupport.java:61-69 | no attribute appears twice in the precedence list |

## Left out

- The generic matching engine (`AttributesSchema`, `AttributeMatchingStrategy`, rule chains, the matcher that filters and narrows variants) is not part of this model. Only the rules it runs are modelled. Exact-match handling, the final verdict when every rule abstains, and the way a selection narrows the variants therefore do not appear.
- Schema wiring in `configureUsage`, `configureView`, `configureLibraryElements`, `configureBundling`, `configureTargetPlatform` and `configureTargetEnvironment` (lines 84-131) is left out. It instantiates rules by reflection and injects interned values. The injected values appear as constants, and each rule is a plain Dafny member.
- `configureConsumerDescriptors` and `JavaEcosystemAttributesDescriber` (line 73) are left out: they only produce failure text, and the describer's code is not part of this model.
- The Category attribute appears only as the first precedence key. Its rules are not configured in this file.
- Rule parameters in Java can be null. A null dereference of the producer value (a `NullPointerException`) is modelled as a precondition, not as an error path.
- `PickLast`: Gradle's `pickLast` implementation is not part of this model. The model selects the greatest candidate and does not consult the consumer value. For candidates that passed the ordered compatibility rule, this is the closest version not above the request (`LastCompatibleIsClosestToRequest`).
- `TargetJvmVersionCompatibility` records `NoOpinion` for a producer above the request. The framework's ordered rule may record an explicit incompatibility there; the verdict type has no such value.
- `ConfigureDefaultTargetPlatform`: `HasAttributes` is reduced to the container it exposes. The Java `int` major version is an unbounded integer; the value is only stored, so its width does not matter.
- `AttributeContainer` models only the `contains` and `attribute` operations this file uses. It does not model key lookup by name or type checks beyond the value kind.
- `TaskReportTask.java` (report rendering and CLI options) and `DependencyMetadata.java` (an interface without behaviour) are not part of this model.
