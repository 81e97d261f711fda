/** `Transmogrifier.format_type`: the type annotation of a member or definition. */
module TypeFormat {
  import opened Results
  import opened Schema

  /** Python's `f"{x}"` of an optional string: `None` prints as "None". */
  function FormatOptional(s: Option<string>): string {
    match s
    case Some(v) => v
    case None => "None"
  }

  /** The rendering of a type: `[T]` for an array of T, otherwise its
      `doc_type()`, which must be a non-empty string. */
  function FormatQapiType(t: QapiType): (r: Result<string>)
    ensures t.ArrayType? ==> r == Ok("[" + FormatOptional(t.elementDocType) + "]")
    ensures t.OtherType? ==> (r.Ok? <==> t.docType.Some? && t.docType.value != "")
    ensures t.OtherType? && r.Ok? ==> r.value == t.docType.value
    ensures r.Ok? ==> r.value != ""
  {
    match t
    case ArrayType(e) => Ok("[" + FormatOptional(e) + "]")
    case OtherType(d) =>
      if d.Some? && d.value != "" then Ok(d.value) else Err(AssertionError("tmp"))
  }

  /** `format_type(ent)`: no annotation for enum members and features; the
      member's type, suffixed by "?" when it is optional; a definition's own
      type; an assertion failure for anything that is not a type. */
  function FormatType(ent: Described): (r: Result<Option<string>>)
    ensures r == Ok(None) <==> ent.EnumMember? || ent.FeatureMember?
    ensures ent.NonType? ==> r.Err?
    ensures r.Ok? && r.value.Some? ==> r.value.value != ""
  {
    match ent
    case EnumMember => Ok(None)
    case FeatureMember => Ok(None)
    case ObjectMember(t, optional) =>
      var s :- FormatQapiType(t);
      Ok(Some(if optional then s + "?" else s))
    case TypeDefinition(t) =>
      var s :- FormatQapiType(t);
      Ok(Some(s))
    case NonType => Err(AssertionError("isinstance(qapi_type, QAPISchemaType)"))
  }

  /** The "?" suffix appears exactly on optional members: an optional member
      renders as the same member made required, followed by "?". */
  lemma OptionalAddsSuffix(t: QapiType)
    ensures FormatType(ObjectMember(t, true)).Ok? <==> FormatType(ObjectMember(t, false)).Ok?
    ensures FormatType(ObjectMember(t, false)).Ok? ==>
              FormatType(ObjectMember(t, false)).value.Some? &&
              FormatType(ObjectMember(t, true)) == Ok(Some(FormatType(ObjectMember(t, false)).value.value + "?"))
  {
  }

  /** A required member renders exactly as the type itself does, and a
      type renders as FormatQapiType says, with the same failure. */
  lemma RequiredMemberIsItsType(t: QapiType)
    ensures FormatType(ObjectMember(t, false)) == FormatType(TypeDefinition(t))
    ensures FormatType(TypeDefinition(t))
         == if FormatQapiType(t).Ok? then Ok(Some(FormatQapiType(t).value)) else Err(FormatQapiType(t).error)
  {
  }

  /** A required array of `Foo` renders as "[Foo]", an optional one as "[Foo]?". */
  lemma ArrayOfFoo()
    ensures FormatType(ObjectMember(ArrayType(Some("Foo")), false)) == Ok(Some("[Foo]"))
    ensures FormatType(ObjectMember(ArrayType(Some("Foo")), true)) == Ok(Some("[Foo]?"))
    ensures FormatType(EnumMember) == Ok(None) && FormatType(FeatureMember) == Ok(None)
  {
    assert "[" + "Foo" + "]" == "[Foo]";
    assert "[Foo]" + "?" == "[Foo]?";
  }
}
