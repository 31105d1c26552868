/** ObjectPropertyChange: an invertible record of one change to one property of a unit,
    capturing the old value when it is made, and its perform over the live property values.
    Change gathers the kinds of change the rest of the model builds. */
module PropertyChanges {
  import opened Results
  import opened GameValues

  /** A property of a unit, addressed by the unit and the property's name. */
  type PropertyKey = (UnitId, string)

  /** The current value of every property of every unit. */
  type Properties = map<PropertyKey, Value>

  /** Whether a property's setter accepts a value; a rejection is MutableProperty.InvalidValueException. */
  type Validator = (PropertyKey, Value) -> bool

  datatype ObjectPropertyChange = ObjectPropertyChange(unit: UnitId, property: string, newValue: Value, oldValue: Value)

  /** The changes built by the core: a unit property change, a change of an attachment's
      property (ChangeFactory.attachmentPropertyChange), and an ordered composite. */
  datatype Change =
    | UnitProperty(change: ObjectPropertyChange)
    | AttachmentProperty(attachment: AttachmentId, property: string, newValue: Value)
    | Composite(changes: seq<Change>)

  /** The package-private constructor: the old value is the property's value at construction time,
      and a missing property is an error. */
  function Create(properties: Properties, unit: UnitId, property: string, newValue: Value)
    : (r: Result<ObjectPropertyChange>)
    ensures r.Ok? <==> (unit, property) in properties
    ensures r.Ok? ==> r.value.unit == unit && r.value.property == property
                      && r.value.newValue == newValue && r.value.oldValue == properties[(unit, property)]
    ensures r.Err? ==> r.error == NoSuchProperty(property)
  {
    if (unit, property) in properties then
      Ok(ObjectPropertyChange(unit, property, newValue, properties[(unit, property)]))
    else
      Err(NoSuchProperty(property))
  }

  /** invert: the same object and property with the old and new values exchanged; it takes
      no state, so it never looks at the live value. */
  function Invert(c: ObjectPropertyChange): (r: ObjectPropertyChange)
    ensures r.unit == c.unit && r.property == c.property
    ensures r.newValue == c.oldValue && r.oldValue == c.newValue
  {
    ObjectPropertyChange(c.unit, c.property, c.oldValue, c.newValue)
  }

  lemma InvertInvolution(c: ObjectPropertyChange)
    ensures Invert(Invert(c)) == c
  {
  }

  /** perform, as a function of the property values before it: the property set to the new
      value and nothing else changed, or the error, with nothing changed. */
  function Apply(properties: Properties, accepts: Validator, c: ObjectPropertyChange): (r: Result<Properties>)
    ensures r.Ok? <==> (c.unit, c.property) in properties && accepts((c.unit, c.property), c.newValue)
    ensures r.Ok? ==> r.value.Keys == properties.Keys && r.value[(c.unit, c.property)] == c.newValue
    ensures r.Ok? ==> forall k :: k in properties && k != (c.unit, c.property) ==> r.value[k] == properties[k]
    ensures (c.unit, c.property) !in properties ==> r == Err(NoSuchProperty(c.property))
    ensures (c.unit, c.property) in properties && !r.Ok? ==> r == Err(ValueRejected(c.property))
  {
    var key := (c.unit, c.property);
    if key !in properties then Err(NoSuchProperty(c.property))
    else if !accepts(key, c.newValue) then Err(ValueRejected(c.property))
    else Ok(properties[key := c.newValue])
  }

  /** Performing a change and then its inverse gives back the values the change was made
      from, provided the setter accepts the value it captured. */
  lemma PerformThenInvertRestores(properties: Properties, accepts: Validator, unit: UnitId, property: string, newValue: Value)
    requires (unit, property) in properties
    requires accepts((unit, property), properties[(unit, property)])
    requires accepts((unit, property), newValue)
    ensures var c := Create(properties, unit, property, newValue).value;
            Apply(properties, accepts, c).Ok? &&
            Apply(Apply(properties, accepts, c).value, accepts, Invert(c)) == Ok(properties)
  {
    var c := Create(properties, unit, property, newValue).value;
    var after := Apply(properties, accepts, c).value;
    var back := Apply(after, accepts, Invert(c));
    assert back.Ok?;
    assert back.value == properties;
  }

  /** The inverse made before any state has moved still applies after the state moves on:
      the property takes the captured value and nothing else changes. */
  lemma InvertAppliesToLaterState(later: Properties, accepts: Validator, c: ObjectPropertyChange)
    requires (c.unit, c.property) in later && accepts((c.unit, c.property), c.oldValue)
    ensures Apply(later, accepts, Invert(c)) == Ok(later[(c.unit, c.property) := c.oldValue])
  {
    var r := Apply(later, accepts, Invert(c));
    assert r.value == later[(c.unit, c.property) := c.oldValue];
  }

  /** The live property values of the units, which perform updates in place. */
  class UnitProperties {
    var properties: Properties
    const accepts: Validator

    constructor (properties: Properties, accepts: Validator)
      ensures this.properties == properties && this.accepts == accepts
    {
      this.properties := properties;
      this.accepts := accepts;
    }

    /** perform: sets the property to the change's new value; when the property is missing or
        the setter rejects the value it fails, and no property has changed. */
    method Perform(c: ObjectPropertyChange) returns (r: Outcome)
      modifies this
      ensures r.Pass? <==> Apply(old(properties), accepts, c).Ok?
      ensures r.Pass? ==> properties == Apply(old(properties), accepts, c).value
      ensures r.Fail? ==> r.error == Apply(old(properties), accepts, c).error && properties == old(properties)
    {
      var key := (c.unit, c.property);
      if key !in properties {
        return Fail(NoSuchProperty(c.property));
      }
      if !accepts(key, c.newValue) {
        return Fail(ValueRejected(c.property));
      }
      properties := properties[key := c.newValue];
      r := Pass;
    }
  }
}
