/**
 * `CliParameter`: one declared parameter of a command, with its defaults, its lazily
 * defaulted error message and its replaceable validator.
 */
module Parameters {
  import opened Common
  import opened Text

  /**
   * A .NET `Type` as the parameter code sees it: `Type.Name` (shown in help text),
   * `Type.ToString()` (used in the default error message) and the type's converter from
   * `TypeDescriptor.GetConverter`. `converter` is `None` when there is no converter; otherwise
   * it holds exactly for the strings that `ConvertFromString` converts without throwing.
   */
  datatype TypeTag = TypeTag(name: string, fullName: string, converter: Option<string -> bool>)

  /** `typeof(string)`: its converter hands every string back unchanged. */
  const STRING_TYPE: TypeTag := TypeTag("String", "System.String", Some((s: string) => true))

  /**
   * What `_Validator` holds: the conversion check the constructor installs, which looks at
   * `DataType` each time it runs, or a function a caller assigned through `CustomValidator`.
   */
  datatype Validator = DefaultConversion | Custom(accepts: string -> bool)

  /**
   * The constructor's default validator run against a type: true when a converter exists and
   * converts the value; a missing converter, or a conversion that throws, gives false.
   */
  predicate DefaultValidator(dataType: TypeTag, value: string) {
    match dataType.converter
    case None => false
    case Some(converts) => converts(value)
  }

  /** Any value passes the default validator of a text parameter. */
  lemma TextAcceptsEverything(value: string)
    ensures DefaultValidator(STRING_TYPE, value)
  {
  }

  class CliParameter {
    var name: string
    var aliases: seq<string>
    var dataType: TypeTag
    var description: string
    var ordinal: int32
    /** The backing field `_ValidatorErrorMessage`; `None` is null. */
    var errorMessage: Option<string>
    /** The backing field `_Validator`. */
    var validator: Validator

    /** The defaults: type string, no aliases, the conversion validator, no explicit message.
        `Name` and `Description` start out null in C#; here they start as "". */
    constructor ()
      ensures dataType == STRING_TYPE && aliases == []
      ensures validator == DefaultConversion && errorMessage == None
      ensures name == "" && description == "" && ordinal == 0
    {
      name := "";
      aliases := [];
      dataType := STRING_TYPE;
      description := "";
      ordinal := 0;
      errorMessage := None;
      validator := DefaultConversion;
    }

    /** `DefaultValidatorErrorMessage()`, built from the current name and type. */
    function DefaultValidatorErrorMessage(): string
      reads this
    {
      name + " could not be parsed as type " + dataType.fullName + "."
    }

    /** The `ValidatorErrorMessage` getter: the message set explicitly, otherwise the default,
        computed when it is read. */
    function ValidatorErrorMessage(): (message: string)
      reads this
      ensures errorMessage.Some? ==> message == errorMessage.value
      ensures errorMessage.None? ==> message == DefaultValidatorErrorMessage()
    {
      match errorMessage
      case Some(explicit) => explicit
      case None => DefaultValidatorErrorMessage()
    }

    /** The `ValidatorErrorMessage` setter; assigning null brings the default back. */
    method SetValidatorErrorMessage(value: Option<string>)
      modifies this`errorMessage
      ensures errorMessage == value
      ensures value.Some? ==> ValidatorErrorMessage() == value.value
      ensures value.None? ==> ValidatorErrorMessage() == DefaultValidatorErrorMessage()
    {
      errorMessage := value;
    }

    /** The `Validator` getter. */
    function Validator(): Validator
      reads this
    {
      validator
    }

    /** Calling `Validator(value)`. */
    predicate Validate(value: string)
      reads this
    {
      match validator
      case DefaultConversion => DefaultValidator(dataType, value)
      case Custom(accepts) => accepts(value)
    }

    /** The `CustomValidator` setter: it replaces the validator outright, so the conversion
        check no longer runs. */
    method SetCustomValidator(accepts: string -> bool)
      modifies this`validator
      ensures Validator() == Custom(accepts)
      ensures forall value :: Validate(value) == accepts(value)
    {
      validator := Custom(accepts);
    }
  }

  /** The default message names the parameter and its type. */
  lemma DefaultMessageNamesParameter(p: CliParameter)
    ensures p.name <= p.DefaultValidatorErrorMessage()
    ensures var m := p.DefaultValidatorErrorMessage();
            m[|p.name| + 29..|m| - 1] == p.dataType.fullName
  {
    var m := p.DefaultValidatorErrorMessage();
    assert m == p.name + (" could not be parsed as type " + (p.dataType.fullName + "."));
    assert |" could not be parsed as type "| == 29;
  }

  /** While the default validator is in place, validation follows the parameter's current type,
      whatever it was when the parameter was built. */
  lemma DefaultValidationFollowsDataType(p: CliParameter, value: string)
    requires p.Validator() == DefaultConversion
    ensures p.Validate(value) == DefaultValidator(p.dataType, value)
  {
  }

  /** Changing the name, aliases, description or ordinal leaves the validator and the explicit
      message alone; only a changed name or type changes the default message. */
  twostate lemma ValidationIgnoresMetadata(p: CliParameter)
    requires unchanged(p`validator, p`dataType, p`errorMessage)
    ensures p.Validator() == old(p.Validator())
    ensures forall value :: p.Validate(value) == old(p.Validate(value))
    ensures old(p.errorMessage).Some? ==> p.ValidatorErrorMessage() == old(p.ValidatorErrorMessage())
  {
  }
}
