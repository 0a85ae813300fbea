/**
 * SqlDescriptor: the header properties of a convention file section, layered
 * over base properties. A property set in the section wins over the base; a
 * list property gathers the comma-separated values of both, section first.
 */
module SqlDescriptors {
  import opened Wrappers
  import opened Strings
  import opened AnnotatedFileParser

  datatype SqlDescriptor = SqlDescriptor(section: SectionParsingResult, baseProperties: map<string, string>)

  /** The one-argument constructor: the section alone, with no base properties. */
  function OfSection(section: SectionParsingResult): (d: SqlDescriptor)
    ensures d.section == section && d.baseProperties == map[]
  {
    SqlDescriptor(section, map[])
  }

  /** HEADER_PROPERTY_SPLITTER: split on ',', trim each value, omit empty values. */
  function HeaderValues(value: string): seq<string>
  {
    SplitTrimOmit(value, ",")
  }

  /** getPropertyValue: the section's value, else the base value, else empty. */
  function GetPropertyValue(d: SqlDescriptor, property: string): (r: Option<string>)
    ensures r.Some? <==> property in d.section.properties || property in d.baseProperties
  {
    if d.section.GetProperty(property).Some? then d.section.GetProperty(property)
    else if property in d.baseProperties then Some(d.baseProperties[property])
    else None
  }

  /** The list getPropertyValues builds: the section's values, then the base's. */
  function PropertyValues(d: SqlDescriptor, property: string): seq<string>
  {
    (if property in d.section.properties then HeaderValues(d.section.properties[property]) else []) +
    (if property in d.baseProperties then HeaderValues(d.baseProperties[property]) else [])
  }

  /** getPropertyValues, appending the two groups of values to a new list. */
  method GetPropertyValues(d: SqlDescriptor, property: string) returns (propertyValues: seq<string>)
    ensures propertyValues == PropertyValues(d, property)
  {
    propertyValues := [];
    if property in d.section.properties {
      var sectionValues := HeaderValues(d.section.properties[property]);
      assert propertyValues + sectionValues == sectionValues;
      propertyValues := propertyValues + sectionValues;
    }
    if property in d.baseProperties {
      propertyValues := propertyValues + HeaderValues(d.baseProperties[property]);
    } else {
      assert propertyValues + [] == propertyValues;
    }
  }

  /** getPropertyValuesSet: the elements of getPropertyValues. */
  function GetPropertyValuesSet(d: SqlDescriptor, property: string): (r: set<string>)
    ensures forall v :: v in r <==> v in PropertyValues(d, property)
  {
    set v | v in PropertyValues(d, property)
  }

  // ---------------------------------------------------------------------
  // Lemmas

  /** The section overrides the base; the base fills in only what the section lacks. */
  lemma PropertyPrecedence(d: SqlDescriptor, property: string)
    ensures property in d.section.properties ==> GetPropertyValue(d, property) == Some(d.section.properties[property])
    ensures property !in d.section.properties && property in d.baseProperties ==>
      GetPropertyValue(d, property) == Some(d.baseProperties[property])
    ensures property !in d.section.properties && property !in d.baseProperties ==> GetPropertyValue(d, property) == None
  {
  }

  /** Without base properties, a descriptor reads the section's properties only. */
  lemma OfSectionProperties(section: SectionParsingResult, property: string)
    ensures GetPropertyValue(OfSection(section), property) == section.GetProperty(property)
    ensures PropertyValues(OfSection(section), property) ==
      if property in section.properties then HeaderValues(section.properties[property]) else []
  {
  }

  /** Every listed value is non-empty, has no whitespace at either end and holds no comma. */
  lemma HeaderValuesClean(value: string)
    ensures forall k :: 0 <= k < |HeaderValues(value)| ==>
      HeaderValues(value)[k] != "" && GuavaTrimmed(HeaderValues(value)[k]) && ',' !in HeaderValues(value)[k]
  {
    var parts := SplitOn(value, ",");
    SplitOnPiecesFree(value, ",");
    TrimmedNonEmptyClean(parts);
    forall k | 0 <= k < |HeaderValues(value)| ensures ',' !in HeaderValues(value)[k] {
      var j :| 0 <= j < |parts| && forall c :: c in HeaderValues(value)[k] ==> c in parts[j];
      CharNotIn(parts[j], ',');
    }
  }

  lemma CharNotIn(s: string, c: char)
    requires !Contains(s, [c])
    ensures c !in s
  {
    if c in s {
      var i :| 0 <= i < |s| && s[i] == c;
      assert s[i..i + 1] == [c];
      ContainsAt(s, [c], i);
    }
  }

  /** Joining clean values with commas and splitting the header again gives them back. */
  lemma HeaderValuesJoin(values: seq<string>)
    requires |values| >= 1
    requires forall k :: 0 <= k < |values| ==> values[k] != "" && GuavaTrimmed(values[k]) && ',' !in values[k]
    ensures HeaderValues(Join(values, ",")) == values
  {
    SplitJoinChar(values, ',');
    TrimmedNonEmptyFixed(values);
  }

  /** getPropertyValues lists clean values, section first, then base. */
  lemma PropertyValuesClean(d: SqlDescriptor, property: string)
    ensures forall v :: v in PropertyValues(d, property) ==> v != "" && GuavaTrimmed(v) && ',' !in v
  {
    if property in d.section.properties {
      HeaderValuesClean(d.section.properties[property]);
    }
    if property in d.baseProperties {
      HeaderValuesClean(d.baseProperties[property]);
    }
  }

  /** A property set in both places lists both groups of values, the section's first. */
  lemma PropertyValuesBoth(d: SqlDescriptor, property: string, sectionValues: seq<string>, baseValues: seq<string>)
    requires |sectionValues| >= 1 && |baseValues| >= 1
    requires forall k :: 0 <= k < |sectionValues| ==> sectionValues[k] != "" && GuavaTrimmed(sectionValues[k]) && ',' !in sectionValues[k]
    requires forall k :: 0 <= k < |baseValues| ==> baseValues[k] != "" && GuavaTrimmed(baseValues[k]) && ',' !in baseValues[k]
    requires property in d.section.properties && d.section.properties[property] == Join(sectionValues, ",")
    requires property in d.baseProperties && d.baseProperties[property] == Join(baseValues, ",")
    ensures PropertyValues(d, property) == sectionValues + baseValues
  {
    HeaderValuesJoin(sectionValues);
    HeaderValuesJoin(baseValues);
  }
}
