/**
 * The compatibility rules of the Java ecosystem: given the value a consumer
 * requested and the value a producer variant declares, each rule either
 * records `Compatible` or stays silent (`NoOpinion`).
 *
 * Java passes the two values as nullable references; here they are Options.
 * Every rule except the target-environment one dereferences the producer value
 * once the consumer value is known to be present, so each such rule requires
 * the producer value wherever its code reads it, and no further.
 */
module CompatibilityRules {
  import opened Wrappers
  import opened JavaAttributes

  /** A request for the API view is served by the internal view, which contains it. */
  const CompileViewTable: Table<CompileView> :=
    map[CompileView.JavaApi := {CompileView.JavaInternal}]

  /** What each usage accepts from a producer whose usage is different. */
  const UsageTable: Table<Usage> :=
    map[Usage.JavaApi := {Usage.JavaApiJars, Usage.JavaRuntimeJars, Usage.JavaRuntime},
        Usage.JavaRuntime := {Usage.JavaRuntimeJars}]

  /** A jar holds classes and resources, so it serves a request for either. */
  const LibraryElementsTable: Table<LibraryElements> :=
    map[LibraryElements.Classes := {LibraryElements.Jar},
        LibraryElements.Resources := {LibraryElements.Jar},
        LibraryElements.ClassesAndResources := {LibraryElements.Jar}]

  /** A fat jar serves a request for external dependencies; a shadow jar serves both. */
  const BundlingTable: Table<Bundling> :=
    map[Bundling.External := {Bundling.Embedded, Bundling.Shadowed},
        Bundling.Embedded := {Bundling.Shadowed}]

  /** The producer names the Usage rule accepts for a `java-api` request. */
  const CompatibleWithJavaApi: set<string> :=
    {Usage.JavaApiJars.name, Usage.JavaRuntimeJars.name, Usage.JavaRuntime.name}

  /** The producer names the Bundling rule accepts for an `external` request. */
  const CompatibleWithExternal: set<string> :=
    {Bundling.Embedded.name, Bundling.Shadowed.name}

  function CompileViewCompatibility(consumer: Option<CompileView>, producer: Option<CompileView>): (v: Verdict)
    requires consumer.Some? && consumer.value.name == CompileView.JavaApi.name ==> producer.Some?
    ensures consumer.None? ==> v == Compatible
    ensures v == Compatible <==>
      consumer.None? || (producer.Some? && Accepts(CompileViewTable, consumer.value, producer.value))
  {
    if consumer.None? then Compatible
    else if CompileView.JavaApi.name == consumer.value.name && CompileView.JavaInternal.name == producer.value.name then Compatible
    else NoOpinion
  }

  function UsageCompatibility(consumer: Option<Usage>, producer: Option<Usage>): (v: Verdict)
    requires consumer.Some? && consumer.value.name in {Usage.JavaApi.name, Usage.JavaRuntime.name} ==> producer.Some?
    ensures consumer.None? ==> v == Compatible
    ensures v == Compatible <==>
      consumer.None? || (producer.Some? && Accepts(UsageTable, consumer.value, producer.value))
  {
    if consumer.None? then Compatible
    else if consumer.value.name == Usage.JavaApi.name then
      if producer.value.name in CompatibleWithJavaApi then Compatible else NoOpinion
    else if consumer.value.name == Usage.JavaRuntime.name && producer.value.name == Usage.JavaRuntimeJars.name then Compatible
    else NoOpinion
  }

  function LibraryElementsCompatibility(consumer: Option<LibraryElements>, producer: Option<LibraryElements>): (v: Verdict)
    requires consumer.Some? ==> producer.Some?
    ensures consumer.None? ==> v == Compatible
    ensures v == Compatible <==>
      consumer.None? || Accepts(LibraryElementsTable, consumer.value, producer.value)
  {
    if consumer.None? then Compatible
    else
      var consumerName, producerName := consumer.value.name, producer.value.name;
      if (LibraryElements.Classes.name == consumerName || LibraryElements.Resources.name == consumerName
          || LibraryElements.ClassesAndResources.name == consumerName) && LibraryElements.Jar.name == producerName
      then Compatible
      else NoOpinion
  }

  /** The target environment never rules a candidate out. */
  function TargetJvmEnvironmentCompatibility(consumer: Option<TargetJvmEnvironment>, producer: Option<TargetJvmEnvironment>): (v: Verdict)
    ensures v == Compatible
  {
    Compatible
  }

  function BundlingCompatibility(consumer: Option<Bundling>, producer: Option<Bundling>): (v: Verdict)
    requires consumer.Some? ==> producer.Some?
    ensures consumer.None? ==> v == Compatible
    ensures v == Compatible <==>
      consumer.None? || Accepts(BundlingTable, consumer.value, producer.value)
  {
    if consumer.None? then Compatible
    else
      var consumerName, producerName := consumer.value.name, producer.value.name;
      if Bundling.External.name == consumerName then
        if producerName in CompatibleWithExternal then Compatible else NoOpinion
      else if Bundling.Embedded.name == consumerName then
        if Bundling.Shadowed.name == producerName then Compatible else NoOpinion
      else NoOpinion
  }

  /** `Ordering.natural().compare` on integers: the sign of `a - b`. */
  function NaturalCompare(a: int, b: int): (c: int)
    ensures c < 0 <==> a < b
    ensures c == 0 <==> a == b
  {
    if a < b then -1 else if a == b then 0 else 1
  }

  /**
   * `ordered(Ordering.natural())`: a producer version serves a request when it
   * does not exceed the requested version.
   */
  function TargetJvmVersionCompatibility(consumer: Option<JvmVersion>, producer: Option<JvmVersion>): (v: Verdict)
    requires consumer.Some? ==> producer.Some?
    ensures consumer.None? ==> v == Compatible
    ensures consumer.Some? ==> (v == Compatible <==> producer.value <= consumer.value)
  {
    if consumer.None? then Compatible
    else if NaturalCompare(consumer.value, producer.value) >= 0 then Compatible
    else NoOpinion
  }

  // ---------------------------------------------------------------------------
  // Properties relating several calls

  /** Usage compatibility is directed: an API request takes a runtime variant, not the converse. */
  lemma UsageCompatibilityIsNotSymmetric()
    ensures UsageCompatibility(Some(Usage.JavaApi), Some(Usage.JavaRuntime)) == Compatible
    ensures UsageCompatibility(Some(Usage.JavaRuntime), Some(Usage.JavaApi)) == NoOpinion
  {
  }

  /** A `java-runtime` request accepts only the deprecated runtime-jars usage. */
  lemma RuntimeRequestAcceptsOnlyRuntimeJars(producer: Usage)
    ensures UsageCompatibility(Some(Usage.JavaRuntime), Some(producer)) == Compatible
            <==> producer == Usage.JavaRuntimeJars
  {
  }

  /**
   * No rule records `Compatible` for two equal values of a named attribute: an
   * exact match is settled by the matching framework before any rule runs.
   */
  lemma RulesAreSilentOnEqualValues(u: Usage, l: LibraryElements, c: CompileView, b: Bundling)
    ensures UsageCompatibility(Some(u), Some(u)) == NoOpinion
    ensures LibraryElementsCompatibility(Some(l), Some(l)) == NoOpinion
    ensures CompileViewCompatibility(Some(c), Some(c)) == NoOpinion
    ensures BundlingCompatibility(Some(b), Some(b)) == NoOpinion
  {
  }

  /** A higher request accepts every producer a lower request accepts. */
  lemma TargetJvmVersionCompatibilityIsMonotone(lower: JvmVersion, higher: JvmVersion, producer: JvmVersion)
    requires lower <= higher
    requires TargetJvmVersionCompatibility(Some(lower), Some(producer)) == Compatible
    ensures TargetJvmVersionCompatibility(Some(higher), Some(producer)) == Compatible
  {
  }
}
