/**
 * The attribute types of the Java ecosystem and their named values.
 *
 * Gradle interns named attribute values: `objectFactory.named(Usage.class, n)`
 * always yields the same object for the same name, so equality of values and
 * equality of names coincide. Each named attribute is therefore modelled as a
 * datatype wrapping its name; the consts are the names Gradle publishes.
 */
module JavaAttributes {

  /** The typed attribute keys the Java ecosystem schema configures. */
  datatype Attribute =
    | CategoryAttribute
    | UsageAttribute
    | CompileViewAttribute
    | TargetJvmVersionAttribute
    | LibraryElementsAttribute
    | BundlingAttribute
    | TargetJvmEnvironmentAttribute
    | CustomAttribute(name: string)

  datatype Usage = Usage(name: string) {
    static const JavaApi: Usage := Usage("java-api")
    static const JavaRuntime: Usage := Usage("java-runtime")
    /** Deprecated in Gradle, still recognised by the rules. */
    static const JavaApiJars: Usage := Usage("java-api-jars")
    /** Deprecated in Gradle, still recognised by the rules. */
    static const JavaRuntimeJars: Usage := Usage("java-runtime-jars")
  }

  datatype LibraryElements = LibraryElements(name: string) {
    static const Classes: LibraryElements := LibraryElements("classes")
    static const Resources: LibraryElements := LibraryElements("resources")
    static const ClassesAndResources: LibraryElements := LibraryElements("classes+resources")
    static const Jar: LibraryElements := LibraryElements("jar")
  }

  datatype CompileView = CompileView(name: string) {
    static const JavaApi: CompileView := CompileView("java-api")
    static const JavaInternal: CompileView := CompileView("java-internal")
  }

  datatype Bundling = Bundling(name: string) {
    static const External: Bundling := Bundling("external")
    static const Embedded: Bundling := Bundling("embedded")
    static const Shadowed: Bundling := Bundling("shadowed")
  }

  datatype TargetJvmEnvironment = TargetJvmEnvironment(name: string) {
    static const StandardJvm: TargetJvmEnvironment := TargetJvmEnvironment("standard-jvm")
  }

  /** A target JVM version is a plain integer (the major Java version). */
  type JvmVersion = int

  /** What a compatibility rule records: it calls `compatible()` or says nothing. */
  datatype Verdict = Compatible | NoOpinion

  /**
   * A fixed compatibility table: for each consumer value, the producer values
   * that can stand in for it (beyond an exact match, which the matching
   * framework decides before any rule runs).
   */
  type Table<T> = map<T, set<T>>

  predicate Accepts<T>(table: Table<T>, consumer: T, producer: T) {
    consumer in table && producer in table[consumer]
  }

}
