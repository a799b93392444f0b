/**
 * The attribute container a configuration carries, and the two schema-level
 * pieces of the Java ecosystem support: the disambiguation precedence and the
 * conventional default for the target JVM version.
 */
module JavaEcosystemSupport {
  import opened Wrappers
  import opened JavaAttributes

  // ---------------------------------------------------------------------------
  // Attribute containers

  /** A value stored in a container: a named (interned) value or an integer. */
  datatype AttributeValue = NamedValue(name: string) | IntegerValue(number: int)

  /** The target JVM version is an integer attribute; the other standard ones are named. */
  predicate ValueFits(key: Attribute, value: AttributeValue) {
    match key
    case TargetJvmVersionAttribute => value.IntegerValue?
    case CustomAttribute(_) => true
    case _ => value.NamedValue?
  }

  /** At most one value per attribute (a map), and each of the attribute's type. */
  predicate WellTyped(entries: map<Attribute, AttributeValue>) {
    forall key :: key in entries ==> ValueFits(key, entries[key])
  }

  /** A mutable attribute container, as a configuration exposes it. */
  class AttributeContainer {
    var entries: map<Attribute, AttributeValue>

    ghost predicate Valid()
      reads this
    {
      WellTyped(entries)
    }

    constructor ()
      ensures Valid() && entries == map[]
    {
      entries := map[];
    }

    predicate Contains(key: Attribute)
      reads this
    {
      key in entries
    }

    /** Sets (or replaces) the value of one attribute. */
    method SetAttribute(key: Attribute, value: AttributeValue)
      requires Valid() && ValueFits(key, value)
      modifies this
      ensures Valid()
      ensures entries == old(entries)[key := value]
    {
      entries := entries[key := value];
    }
  }

  // ---------------------------------------------------------------------------
  // Default target platform

  /** The container contents once the conventional target JVM version has been applied. */
  function WithDefaultTargetPlatform(entries: map<Attribute, AttributeValue>, majorVersion: int): (r: map<Attribute, AttributeValue>)
    ensures TargetJvmVersionAttribute in r
    ensures TargetJvmVersionAttribute in entries ==> r == entries
    ensures TargetJvmVersionAttribute !in entries ==> r[TargetJvmVersionAttribute] == IntegerValue(majorVersion)
    ensures r.Keys == entries.Keys + {TargetJvmVersionAttribute}
    ensures forall key :: key in entries && key != TargetJvmVersionAttribute ==> r[key] == entries[key]
  {
    if TargetJvmVersionAttribute in entries then entries
    else entries[TargetJvmVersionAttribute := IntegerValue(majorVersion)]
  }

  /**
   * Fills in the target JVM version from the given major version when the
   * container has none; a version already present wins.
   */
  method ConfigureDefaultTargetPlatform(configuration: AttributeContainer, majorVersion: int)
    requires configuration.Valid()
    modifies configuration
    ensures configuration.Valid()
    ensures configuration.entries == WithDefaultTargetPlatform(old(configuration.entries), majorVersion)
  {
    if !configuration.Contains(TargetJvmVersionAttribute) {
      configuration.SetAttribute(TargetJvmVersionAttribute, IntegerValue(majorVersion));
    }
  }

  /** Applying the default twice, even with another version, changes nothing more. */
  lemma DefaultTargetPlatformIsIdempotent(entries: map<Attribute, AttributeValue>, majorVersion: int, laterVersion: int)
    ensures WithDefaultTargetPlatform(WithDefaultTargetPlatform(entries, majorVersion), laterVersion)
         == WithDefaultTargetPlatform(entries, majorVersion)
  {
  }

  /** The default keeps a container well typed. */
  lemma DefaultTargetPlatformKeepsWellTyped(entries: map<Attribute, AttributeValue>, majorVersion: int)
    requires WellTyped(entries)
    ensures WellTyped(WithDefaultTargetPlatform(entries, majorVersion))
  {
  }

  // ---------------------------------------------------------------------------
  // Disambiguation precedence

  /** Attributes earlier in this list are disambiguated first. */
  const DisambiguationPrecedence: seq<Attribute> := [
    CategoryAttribute,
    UsageAttribute,
    CompileViewAttribute,
    TargetJvmVersionAttribute,
    LibraryElementsAttribute,
    BundlingAttribute,
    TargetJvmEnvironmentAttribute
  ]

  /** The position of the first occurrence of `x` in `s`. */
  function IndexOf<T(==)>(s: seq<T>, x: T): (r: Option<nat>)
    ensures r.None? <==> x !in s
    ensures r.Some? ==> r.value < |s| && s[r.value] == x
    ensures r.Some? ==> forall j :: 0 <= j < r.value ==> s[j] != x
  {
    if s == [] then None
    else if s[0] == x then Some(0)
    else
      match IndexOf(s[1..], x)
      case None => None
      case Some(i) => Some(i + 1)
  }

  /** Where an attribute stands in the precedence; attributes not listed have no rank. */
  function PrecedenceRank(attribute: Attribute): Option<nat> {
    IndexOf(DisambiguationPrecedence, attribute)
  }

  /** The seven standard attributes in the order the schema configures. */
  lemma PrecedenceRanks()
    ensures PrecedenceRank(CategoryAttribute) == Some(0)
    ensures PrecedenceRank(UsageAttribute) == Some(1)
    ensures PrecedenceRank(CompileViewAttribute) == Some(2)
    ensures PrecedenceRank(TargetJvmVersionAttribute) == Some(3)
    ensures PrecedenceRank(LibraryElementsAttribute) == Some(4)
    ensures PrecedenceRank(BundlingAttribute) == Some(5)
    ensures PrecedenceRank(TargetJvmEnvironmentAttribute) == Some(6)
  {
    RankIsPosition(0);
    RankIsPosition(1);
    RankIsPosition(2);
    RankIsPosition(3);
    RankIsPosition(4);
    RankIsPosition(5);
    RankIsPosition(6);
  }

  /** Attributes of other plugins are not in the Java ecosystem's precedence. */
  lemma CustomAttributesHaveNoRank(name: string)
    ensures PrecedenceRank(CustomAttribute(name)) == None
  {
    assert CustomAttribute(name) !in DisambiguationPrecedence;
  }

  /** An attribute's rank is its position in the list. */
  lemma RankIsPosition(i: nat)
    requires i < |DisambiguationPrecedence|
    ensures PrecedenceRank(DisambiguationPrecedence[i]) == Some(i)
  {
    PrecedenceHasNoDuplicates();
    var r := PrecedenceRank(DisambiguationPrecedence[i]);
    assert r.Some? && r.value <= i;
  }

  /** Each attribute appears once, so the precedence is a strict order on the listed attributes. */
  lemma PrecedenceHasNoDuplicates()
    ensures forall i, j :: 0 <= i < j < |DisambiguationPrecedence| ==> DisambiguationPrecedence[i] != DisambiguationPrecedence[j]
  {
  }
}
