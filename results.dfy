/** Failure-carrying wrappers shared by the model. Each Error constructor stands for one
    exception the game engine throws; the Java exception class is named beside it. */
module Results {

  datatype Option<+T> = None | Some(value: T) {
    function GetOr(default: T): T {
      match this
      case Some(v) => v
      case None => default
    }
  }

  datatype Error =
    // IllegalArgumentException from DefaultAttachment.getInt and getBool, naming the value
    | NotAnInt(value: string)
    | NotABoolean(value: string)
    // NumberFormatException from Integer.parseInt, naming the text
    | NumberFormat(text: string)
    // IllegalStateException from DefaultAttachment.getAttachment
    | MissingAttachment(attachmentName: string, attachmentType: string, objectName: string)
    // ClassCastException from a checked cast
    | WrongAttachmentType(attachmentName: string, attachmentType: string)
    // NullPointerException
    | NullDereference
    // GameParseException raised while loading rule text
    | InvalidConditionType(value: string)
    | InvalidChanceDeclaration(chance: string)
    | ChanceOutOfRange(chance: string)
    | RuleNotFound(name: string)
    // ArrayIndexOutOfBoundsException from indexing the split chance text
    | ChanceIndexOutOfBounds(chance: string)
    // IllegalStateException from isSatisfied with a null map
    | NullTestedConditions
    // IllegalStateException from ObjectPropertyChange.perform when the setter rejects the value
    | ValueRejected(property: string)
    // the object has no property of that name
    | NoSuchProperty(property: string)

  datatype Result<+T> = Ok(value: T) | Err(error: Error)

  datatype Outcome = Pass | Fail(error: Error)
}
