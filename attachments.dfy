/** DefaultAttachment: the text helpers every attachment builds on (getInt, getBool,
    splitOnColon), the lookup of a named attachment, the raw property string, and the
    identity of an attachment (equals and hashCode over its owner and its name). */
module Attachments {
  import opened Results
  import opened Text
  import opened GameValues

  /** Constants.PROPERTY_TRUE and Constants.PROPERTY_FALSE. */
  const PROPERTY_TRUE := "true"
  const PROPERTY_FALSE := "false"

  /** getInt: Integer.parseInt, with a format error turned into an error naming the value.
      Integer text outside the range of an int is a format error too. */
  function GetInt(value: string): (r: Result<int>)
    ensures r.Ok? <==> ParsesAsInt(value)
    ensures r.Ok? ==> r.value == IntValue(value) && -0x8000_0000 <= r.value < 0x8000_0000
    ensures r.Err? ==> r.error == NotAnInt(value)
  {
    if ParsesAsInt(value) then Ok(IntValue(value)) else Err(NotAnInt(value))
  }

  /** Every int reads back from the text Java renders it as. */
  lemma GetIntRoundTrip(i: Int32)
    ensures GetInt(IntToString(i)) == Ok(i)
  {
    IntToStringValue(i);
  }

  /** getBool: the literals true and false in any letter case; everything else is an error. */
  function GetBool(value: string): (r: Result<bool>)
    ensures r == Ok(true) <==> EqualsIgnoreCase(value, PROPERTY_TRUE)
    ensures r == Ok(false) <==> EqualsIgnoreCase(value, PROPERTY_FALSE)
    ensures r.Err? <==> !EqualsIgnoreCase(value, PROPERTY_TRUE) && !EqualsIgnoreCase(value, PROPERTY_FALSE)
    ensures r.Err? ==> r.error == NotABoolean(value)
  {
    if EqualsIgnoreCase(value, PROPERTY_TRUE) then Ok(true)
    else if EqualsIgnoreCase(value, PROPERTY_FALSE) then Ok(false)
    else Err(NotABoolean(value))
  }

  /** A boolean reads back from its rendering, also written in capitals. */
  lemma GetBoolRoundTrip(b: bool)
    ensures GetBool(ValueToString(Bool(b))) == Ok(b)
    ensures GetBool(ToUpper(ValueToString(Bool(b)))) == Ok(b)
  {
    var s := ValueToString(Bool(b));
    var u := ToUpper(s);
    if b {
      assert EqualsIgnoreCase(s, PROPERTY_TRUE);
      assert u == "TRUE";
      assert EqualsIgnoreCase(u, PROPERTY_TRUE);
    } else {
      assert |s| == 5;
      assert EqualsIgnoreCase(s, PROPERTY_FALSE);
      assert u == "FALSE";
      assert EqualsIgnoreCase(u, PROPERTY_FALSE);
    }
  }

  /** splitOnColon: one piece more than there are colons, empty pieces kept, and the
      pieces joined with ':' give back the input. */
  function SplitOnColon(value: string): (parts: seq<string>)
    ensures |parts| == Occurrences(value, ':') + 1
    ensures forall i :: 0 <= i < |parts| ==> ':' !in parts[i]
    ensures Join(parts, ':') == value
  {
    Split(value, ':')
  }

  /** An attachment as an entry of its owner's attachment map: its identity, and the names of
      its runtime class and of every class it extends, the types a cast to which succeeds. */
  datatype AttachmentRecord = AttachmentRecord(id: AttachmentId, classes: set<string>)

  /** An object that carries named attachments. */
  datatype NamedAttachable = NamedAttachable(name: string, attachments: map<string, AttachmentRecord>)

  /** getAttachment: the named attachment of the requested type, or the error the lookup raises. */
  function GetAttachment(namedAttachable: NamedAttachable, attachmentName: string, attachmentType: string)
    : (r: Result<AttachmentRecord>)
    ensures r.Ok? <==> attachmentName in namedAttachable.attachments
                       && attachmentType in namedAttachable.attachments[attachmentName].classes
    ensures r.Ok? ==> r.value == namedAttachable.attachments[attachmentName]
    ensures attachmentName !in namedAttachable.attachments ==>
              r == Err(MissingAttachment(attachmentName, attachmentType, namedAttachable.name))
    ensures attachmentName in namedAttachable.attachments && !r.Ok? ==>
              r == Err(WrongAttachmentType(attachmentName, attachmentType))
  {
    if attachmentName !in namedAttachable.attachments then
      Err(MissingAttachment(attachmentName, attachmentType, namedAttachable.name))
    else
      var a := namedAttachable.attachments[attachmentName];
      if attachmentType in a.classes then Ok(a) else Err(WrongAttachmentType(attachmentName, attachmentType))
  }

  /** getRawPropertyString over the current values of an attachment's properties: nothing
      when the property is missing or holds null, otherwise the value's rendering. */
  function GetRawPropertyString(properties: map<string, Value>, property: string): (r: Option<string>)
    ensures r.None? <==> property !in properties || properties[property].Null?
    ensures r.Some? ==> r.value == ValueToString(properties[property])
  {
    if property in properties && !properties[property].Null? then Some(ValueToString(properties[property]))
    else None
  }

  /** The raw string of an int property parses back to the int, that of a boolean to the boolean. */
  lemma RawPropertyStringRoundTrip(properties: map<string, Value>, property: string)
    requires property in properties
    ensures properties[property].Int? ==>
              GetRawPropertyString(properties, property).Some? &&
              GetInt(GetRawPropertyString(properties, property).value) == Ok(properties[property].i)
    ensures properties[property].Bool? ==>
              GetRawPropertyString(properties, property).Some? &&
              GetBool(GetRawPropertyString(properties, property).value) == Ok(properties[property].b)
  {
    match properties[property]
    case Int(i) => GetIntRoundTrip(i);
    case Bool(b) => GetBoolRoundTrip(b);
    case _ =>
  }

  /** What an attachment is attached to, seen through its toString() and hashCode(). */
  datatype Attachable = Attachable(text: string, hash: Int32)

  /** The fields equals, hashCode and toString look at: the attachment's class, the object
      it is attached to (None for null) and its name (None for null). */
  datatype AttachmentIdentity = AttachmentIdentity(className: string, attachedTo: Option<Attachable>, name: Option<string>)

  /** String.valueOf of the attached-to object and of the name. */
  function AttachedToText(a: Option<Attachable>): string {
    match a
    case None => "null"
    case Some(x) => x.text
  }

  function NameText(n: Option<string>): string {
    match n
    case None => "null"
    case Some(s) => s
  }

  /** DefaultAttachment.toString. */
  function ToString(a: AttachmentIdentity): string {
    a.className + " attached to:" + AttachedToText(a.attachedTo) + " with name:" + NameText(a.name)
  }

  /** Both attached to null, or both attached to objects with the same text. */
  predicate SameAttachedTo(x: Option<Attachable>, y: Option<Attachable>) {
    (x.None? && y.None?) || (x.Some? && y.Some? && x.value.text == y.value.text)
  }

  /** equals as the code reads: the other object's class, then the attached-to objects'
      texts, then the names or failing that the toString texts. When this attachment is
      attached to something and the other to null, the code dereferences null. */
  function EqualsAsWritten(a: AttachmentIdentity, obj: Option<AttachmentIdentity>): (r: Result<bool>)
    ensures r == Ok(true) <==>
              obj.Some? && a.className == obj.value.className && SameAttachedTo(a.attachedTo, obj.value.attachedTo)
              && NameText(a.name) == NameText(obj.value.name)
    ensures r.Err? <==>
              obj.Some? && a.className == obj.value.className && a.attachedTo.Some? && obj.value.attachedTo.None?
    ensures r.Err? ==> r.error == NullDereference
  {
    if obj.None? || a.className != obj.value.className then Ok(false)
    else
      var other := obj.value;
      if a.attachedTo.None? && other.attachedTo.Some? then Ok(false)
      else if a.attachedTo.Some? && other.attachedTo.None? then Err(NullDereference)
      else if a.attachedTo.Some? && a.attachedTo.value.text != other.attachedTo.value.text then Ok(false)
      else
        ToStringCancels(a, other);
        Ok(a.name == other.name || ToString(a) == ToString(other))
  }

  /** Once class and attached-to text agree, the toString texts agree exactly when the name texts do. */
  lemma ToStringCancels(a: AttachmentIdentity, b: AttachmentIdentity)
    requires a.className == b.className && AttachedToText(a.attachedTo) == AttachedToText(b.attachedTo)
    ensures ToString(a) == ToString(b) <==> NameText(a.name) == NameText(b.name)
  {
    var prefix := a.className + " attached to:" + AttachedToText(a.attachedTo) + " with name:";
    assert ToString(a) == prefix + NameText(a.name);
    assert ToString(b) == prefix + NameText(b.name);
    if ToString(a) == ToString(b) {
      assert NameText(a.name) == ToString(a)[|prefix|..];
      assert NameText(b.name) == ToString(b)[|prefix|..];
    }
  }

  /** String.hashCode: h = 31 * h + c over the characters, in 32-bit arithmetic. A Dafny
      character is a whole Unicode scalar value, where Java hashes UTF-16 code units, so the two
      agree on text within the Basic Multilingual Plane only. */
  function StringHash(s: string): Int32
    decreases |s|
  {
    if |s| == 0 then 0 else ToInt32(31 * StringHash(s[..|s| - 1]) + s[|s| - 1] as int)
  }

  /** hashCode: Objects.hash(attachedTo, name), null hashing to 0. */
  function HashCode(a: AttachmentIdentity): Int32 {
    var attachedHash := match a.attachedTo case None => 0 case Some(x) => x.hash;
    var nameHash := match a.name case None => 0 case Some(s) => StringHash(s);
    ToInt32(31 * ToInt32(31 * 1 + attachedHash) + nameHash)
  }

  /** The hash code depends on nothing but the attached-to object and the name. */
  lemma HashCodeDependsOnlyOnAttachedToAndName(a: AttachmentIdentity, b: AttachmentIdentity)
    requires a.attachedTo == b.attachedTo && a.name == b.name
    ensures HashCode(a) == HashCode(b)
  {
  }

  /** As written, equals is not symmetric: one direction throws, the other answers false. */
  lemma EqualsAsWrittenThrowsOnNullAttachedTo(a: AttachmentIdentity, b: AttachmentIdentity)
    requires a.className == b.className && a.attachedTo.Some? && b.attachedTo.None?
    ensures EqualsAsWritten(a, Some(b)) == Err(NullDereference)
    ensures EqualsAsWritten(b, Some(a)) == Ok(false)
  {
  }

  /** As written, a null name and the name "null" compare equal through the toString
      fallback, yet their hash codes differ. */
  lemma EqualsAsWrittenBreaksHashCode(className: string, attachedTo: Option<Attachable>)
    ensures var a := AttachmentIdentity(className, attachedTo, None);
            var b := AttachmentIdentity(className, attachedTo, Some("null"));
            EqualsAsWritten(a, Some(b)) == Ok(true) && HashCode(a) != HashCode(b)
  {
    var a := AttachmentIdentity(className, attachedTo, None);
    var b := AttachmentIdentity(className, attachedTo, Some("null"));
    assert StringHash("null") == 3392903 by {
      assert "null"[..3] == "nul" && "nul"[..2] == "nu" && "nu"[..1] == "n" && "n"[..0] == "";
    }
    var attachedHash := match attachedTo case None => 0 case Some(x) => x.hash;
    var y := 31 * ToInt32(31 * 1 + attachedHash);
    assert HashCode(a) == ToInt32(y);
    assert HashCode(b) == ToInt32(y + 3392903);
    ToInt32Distinct(y, 3392903);
  }

  /** equals as evidently intended: same class, same attached-to text (or both null), same
      name. It never fails and asks exactly that. */
  function Equals(a: AttachmentIdentity, obj: Option<AttachmentIdentity>): (r: bool)
    ensures r ==> obj.Some? && a.className == obj.value.className
  {
    obj.Some? && a.className == obj.value.className && SameAttachedTo(a.attachedTo, obj.value.attachedTo)
    && a.name == obj.value.name
  }

  /** The intended equals is an equivalence relation. */
  lemma EqualsIsEquivalence(a: AttachmentIdentity, b: AttachmentIdentity, c: AttachmentIdentity)
    ensures Equals(a, Some(a))
    ensures Equals(a, Some(b)) == Equals(b, Some(a))
    ensures Equals(a, Some(b)) && Equals(b, Some(c)) ==> Equals(a, Some(c))
  {
  }

  /** The intended equals agrees with the code wherever the code answers, except that it
      no longer counts a null name equal to the name "null". */
  lemma EqualsAgreesWithAsWritten(a: AttachmentIdentity, obj: Option<AttachmentIdentity>)
    requires EqualsAsWritten(a, obj).Ok?
    requires obj.Some? ==> (a.name.None? <==> obj.value.name.None?)
    ensures EqualsAsWritten(a, obj) == Ok(Equals(a, obj))
  {
  }

  /** With the intended equals, equal attachments have equal hash codes, provided the
      attached-to objects hash consistently with their text. */
  lemma EqualsImpliesSameHashCode(a: AttachmentIdentity, b: AttachmentIdentity)
    requires a.attachedTo.Some? && b.attachedTo.Some? && a.attachedTo.value.text == b.attachedTo.value.text
             ==> a.attachedTo.value.hash == b.attachedTo.value.hash
    requires Equals(a, Some(b))
    ensures HashCode(a) == HashCode(b)
  {
  }

  /** The mutable part of DefaultAttachment: setName and setAttachedTo assign its fields. */
  class DefaultAttachment {
    const className: string
    var name: Option<string>
    var attachedTo: Option<Attachable>

    constructor (className: string, name: Option<string>, attachable: Option<Attachable>)
      ensures this.className == className && this.name == name && attachedTo == attachable
    {
      this.className := className;
      this.name := name;
      attachedTo := attachable;
    }

    method SetName(name: Option<string>)
      modifies this
      ensures this.name == name && attachedTo == old(attachedTo)
    {
      this.name := name;
    }

    method SetAttachedTo(attachable: Option<Attachable>)
      modifies this
      ensures attachedTo == attachable && name == old(name)
    {
      attachedTo := attachable;
    }
  }
}
