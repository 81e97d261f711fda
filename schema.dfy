/** The parts of the QAPI schema and documentation model the transmogrifier
    reads. The parser that builds them is outside this model; these records
    carry only the fields the rendering code looks at. */
module Schema {
  import opened Results

  /** `QAPISourceInfo`: a file name and a one-based line number. */
  datatype SourceInfo = SourceInfo(fname: string, line: int)

  /** `QAPISourceInfo.next_line(n)`: the same file, `n` lines further on. */
  function NextLine(info: SourceInfo, n: int): SourceInfo {
    info.(line := info.line + n)
  }

  /** `QAPIDoc.Kind`. */
  datatype SectionKind = Plain | Member | Feature | Returns | Errors | Since | Todo

  /** `QAPIDoc.Section`: a kind, the raw comment text and where it starts. */
  datatype Section = Section(kind: SectionKind, text: string, info: SourceInfo)

  /** `QAPIDoc`: where the comment block starts, all its sections in order,
      and its "Since:" section if it has one. */
  datatype Doc = Doc(info: SourceInfo, allSections: seq<Section>, since: Option<Section>)

  /** `QAPISchemaIfCond`: whether a condition is present and the text its
      `docgen()` produces. */
  datatype IfCond = IfCond(present: bool, docgen: string)

  /** `QAPISchemaFeature`: its name, whether `is_special()` holds of it
      (deprecated, unstable, ...), and its source position, which may be absent. */
  datatype Feature = Feature(name: string, special: bool, info: Option<SourceInfo>)

  /** `QAPISchemaDefinition`, as far as `preamble` reads it. */
  datatype Entity = Entity(doc: Option<Doc>, info: Option<SourceInfo>, ifcond: IfCond, features: seq<Feature>)

  /** A `QAPISchemaType`, with the result of its `doc_type()` (which may be None). */
  datatype QapiType =
    | ArrayType(elementDocType: Option<string>)  // `QAPISchemaArrayType`: `doc_type()` of its element type
    | OtherType(docType: Option<string>)         // any other type

  /** What `format_type` may be handed: a definition or a member. */
  datatype Described =
    | EnumMember                                    // `QAPISchemaEnumMember`
    | FeatureMember                                 // `QAPISchemaFeature`
    | ObjectMember(memberType: QapiType, optional: bool)  // `QAPISchemaObjectTypeMember`
    | TypeDefinition(definedType: QapiType)         // a definition that is a `QAPISchemaType`
    | NonType                                       // a command, an event, or another kind of member
}
