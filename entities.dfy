/**
 * Entities and attribute sets as the packed entity collection builder sees them:
 * typed attribute names, attribute values, records (entities) and the ordered
 * attribute set (schema) with its position lookups.
 */
module Entities {

  datatype Option<+T> = None | Some(value: T)

  /** Bounds of a Java `long`. */
  const MinLong: int := -0x8000_0000_0000_0000
  const MaxLong: int := 0x7FFF_FFFF_FFFF_FFFF

  predicate IsLong(x: int) {
    MinLong <= x <= MaxLong
  }

  /** The declared value type of an attribute (its type token); for these types the raw type is the type itself. */
  datatype DeclaredType = LongType | IntegerType | DoubleType | OtherType(className: string)

  /** A typed attribute name. */
  datatype TypedName = TypedName(name: string, ty: DeclaredType)

  /** The entity identifier attribute, which every packed schema holds at position 0. */
  const EntityId: TypedName := TypedName("id", LongType)

  /** An attribute value; doubles are stood in for by reals. */
  datatype Value =
    | LongValue(l: int)
    | IntValue(i: int)
    | DoubleValue(d: real)
    | ObjectValue(o: string)

  datatype Attribute = Attribute(name: TypedName, value: Value)

  /** A record: its identifier and the attributes it carries, in iteration order. */
  datatype Entity = Entity(id: int, attributes: seq<Attribute>)

  /**
   * Position of a typed name in an attribute set, or -1 when it is not there
   * (the first position holding it if it occurs more than once).
   */
  function Lookup(attrs: seq<TypedName>, tn: TypedName): (r: int)
    ensures -1 <= r < |attrs|
    ensures r == -1 <==> tn !in attrs
    ensures r >= 0 ==> attrs[r] == tn && forall j :: 0 <= j < r ==> attrs[j] != tn
  {
    if |attrs| == 0 then -1
    else if attrs[0] == tn then 0
    else
      var k := Lookup(attrs[1..], tn);
      if k < 0 then -1 else k + 1
  }

  /** Position of the first attribute with the given name, or -1 when no attribute has it. */
  function LookupName(attrs: seq<TypedName>, name: string): (r: int)
    ensures -1 <= r < |attrs|
    ensures r == -1 <==> forall j :: 0 <= j < |attrs| ==> attrs[j].name != name
    ensures r >= 0 ==> attrs[r].name == name && forall j :: 0 <= j < r ==> attrs[j].name != name
  {
    if |attrs| == 0 then -1
    else if attrs[0].name == name then 0
    else
      var k := LookupName(attrs[1..], name);
      if k < 0 then -1 else k + 1
  }
}
