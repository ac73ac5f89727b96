/** The borderZero rule: on a `border*` declaration whose value starts with
    `0` or `none`, style `none` asks for `none` and style `zero` for `0`. */
module BorderZero {
  import opened LintTypes
  import opened Gonzales

  /** The properties the rule looks at. */
  const Properties := ["border", "border-bottom", "border-left", "border-right", "border-top"]

  const NoneMessage := "Border properties should use \"none\" instead of 0."
  const ZeroMessage := "Border properties should use 0 instead of \"none\"."

  /** `lint(config, node)` with `config.borderZero.style == style`, for a
      declaration node. A missing `property`/`value` child or a child without
      a first child is a read of `.first()`/`.content` on `null` or
      `undefined`, hence a TypeError. */
  function Lint(style: string, node: Node): (r: LintOutcome)
    ensures r.Reported? ==>
              FirstOfType(node, "value").Some? &&
              r.messages == [Message(Some(FirstOfType(node, "value").value.start.line),
                                     Some(FirstOfType(node, "value").value.start.column),
                                     if style == "none" then NoneMessage else ZeroMessage)]
    ensures r.Threw? && r.error.InvalidSetting? ==> style != "none" && style != "zero"
  {
    match FirstOfType(node, "property")
    case None => Threw(TypeError)
    case Some(propertyNode) =>
      match FirstChild(propertyNode)
      case None => Threw(TypeError)
      case Some(ident) =>
        // `properties.indexOf(property) === -1`: a non-text payload never matches
        if !(ident.content.Text? && ident.content.text in Properties) then Null
        else
          match FirstOfType(node, "value")
          case None => Threw(TypeError)
          case Some(value) =>
            match FirstChild(value)
            case None => Threw(TypeError)
            case Some(first) =>
              var content := first.content;
              if content != Text("0") && content != Text("none") then Null
              else
                var message: Option<string> :=
                  if style == "none" then (if content == Text("0") then Some(NoneMessage) else None)
                  else if style == "zero" then (if content == Text("none") then Some(ZeroMessage) else None)
                  else None;
                if style != "none" && style != "zero" then
                  Threw(InvalidSetting("Invalid setting value for borderZero: " + style))
                else if message.Some? then
                  Reported([Message(Some(value.start.line), Some(value.start.column), message.value)])
                else Undefined
  }

  /** The declaration's property name is `name` and its value starts with a
      token whose payload is `first`; `value` is the value node. */
  ghost predicate Shape(node: Node, name: Content, value: Node, first: Content)
  {
    && FirstOfType(node, "property").Some?
    && FirstChild(FirstOfType(node, "property").value).Some?
    && FirstChild(FirstOfType(node, "property").value).value.content == name
    && FirstOfType(node, "value") == Some(value)
    && FirstChild(value).Some?
    && FirstChild(value).value.content == first
  }

  /** A property outside the `border*` list gives `null`, whatever the style,
      an unknown one included, and whatever the value. */
  lemma NotABorderProperty(style: string, node: Node, name: Content)
    requires FirstOfType(node, "property").Some?
    requires FirstChild(FirstOfType(node, "property").value).Some?
    requires FirstChild(FirstOfType(node, "property").value).value.content == name
    requires !(name.Text? && name.text in Properties)
    ensures Lint(style, node) == Null
  {
  }

  /** A border property whose value starts with neither `0` nor `none` (a
      real border) gives `null`, whatever the style. */
  lemma NotZeroOrNone(style: string, node: Node, name: string, value: Node, first: Content)
    requires Shape(node, Text(name), value, first) && name in Properties
    requires first != Text("0") && first != Text("none")
    ensures Lint(style, node) == Null
  {
  }

  /** Style `none`: `0` is reported once, at the value; `none` conforms. */
  lemma StyleNone(node: Node, name: string, value: Node, first: Content)
    requires Shape(node, Text(name), value, first) && name in Properties
    requires first == Text("0") || first == Text("none")
    ensures Lint("none", node) ==
              if first == Text("0")
              then Reported([Message(Some(value.start.line), Some(value.start.column), NoneMessage)])
              else Undefined
  {
  }

  /** Style `zero`: `none` is reported once, at the value; `0` conforms. */
  lemma StyleZero(node: Node, name: string, value: Node, first: Content)
    requires Shape(node, Text(name), value, first) && name in Properties
    requires first == Text("0") || first == Text("none")
    ensures Lint("zero", node) ==
              if first == Text("none")
              then Reported([Message(Some(value.start.line), Some(value.start.column), ZeroMessage)])
              else Undefined
  {
  }

  /** An unknown style throws exactly when both filters let the declaration
      through. */
  lemma UnknownStyle(style: string, node: Node, name: Content, value: Node, first: Content)
    requires style != "none" && style != "zero"
    requires Shape(node, name, value, first)
    ensures Lint(style, node).Threw? <==>
              (name.Text? && name.text in Properties && (first == Text("0") || first == Text("none")))
    ensures Lint(style, node).Threw? ==>
              Lint(style, node).error == InvalidSetting("Invalid setting value for borderZero: " + style)
  {
  }

  /** The two known styles never both accept a value that passes the
      filters: exactly one of them reports it. */
  lemma StylesAreComplementary(node: Node, name: string, value: Node, first: Content)
    requires Shape(node, Text(name), value, first) && name in Properties
    requires first == Text("0") || first == Text("none")
    ensures Lint("none", node).Reported? != Lint("zero", node).Reported?
  {
    StyleNone(node, name, value, first);
    StyleZero(node, name, value, first);
  }
}
