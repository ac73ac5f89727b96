/** The spaceAfterPropertyName rule: the token right after a declaration's
    property name must (style `one_space`) or must not (style `no_space`) be
    a single space. The rule object keeps its message template in a field
    that a `one_space` violation rewrites for good. */
module SpaceAfterPropertyName {
  import opened LintTypes
  import opened JsStrings
  import opened Gonzales

  // Both templates are written as concatenations of short pieces, cut
  // where the proofs about `sprintf` and `replace` look at them.

  /** The template the rule object starts with. */
  const Template := "Colon " + "a" + "fter property should" + "%s" + " be preceded by " + "any" + " space."

  /** The template once a `one_space` violation has rewritten it. */
  const RewrittenText := "Colon " + "a" + "fter property should" + "%s" + " be preceded by " + "one sp" + "a" + "ce."

  /** How one declaration fares under a style. */
  datatype Judgement = Conforms | Violates | Fails(error: LintError)

  /** `node.content[findIndex(node.content, property) + 1]`: the element
      after the first `property` element (the first element when there is
      no property), or `undefined` past the end. */
  function MaybeSpace(content: seq<Node>): Option<Node>
  {
    var k := FindIndex(content, "property") + 1;
    if k < |content| then Some(content[k]) else None
  }

  /** The style switch. Reading `.kind` of `undefined` raises a TypeError
      under both known styles; an unknown style throws before anything is
      read. */
  function Judge(style: string, maybeSpace: Option<Node>): Judgement
  {
    if style == "no_space" then
      if maybeSpace.None? then Fails(TypeError)
      else if maybeSpace.value.kind == "space" then Violates
      else Conforms
    else if style == "one_space" then
      if maybeSpace.None? then Fails(TypeError)
      else if maybeSpace.value.kind != "space"
              || (maybeSpace.value.kind == "space" && maybeSpace.value.content != Text(" "))
      then Violates
      else Conforms
    else
      Fails(InvalidSetting("Invalid setting value for spaceAfterPropertyName: " + style))
  }

  /** The template after the call: a `one_space` violation replaces its
      first `any` by `one`. */
  function TemplateAfter(style: string, content: seq<Node>, template: string): string
  {
    if style == "one_space" && Judge(style, MaybeSpace(content)) == Violates
    then ReplaceFirst(template, "any", "one")
    else template
  }

  /** What `lint` returns or throws, given the template before the call. */
  function Outcome(style: string, content: seq<Node>, template: string): LintOutcome
  {
    var ms := MaybeSpace(content);
    match Judge(style, ms)
    case Fails(e) => Threw(e)
    case Conforms => Undefined
    case Violates =>
      Reported([Message(Some(ms.value.start.line), Some(ms.value.start.column),
                        Sprintf1(TemplateAfter(style, content, template),
                                 if style == "no_space" then " not" else ""))])
  }

  /** The rule object; `message` persists across calls of `Lint`. */
  class Rule {
    var message: string
    /** Whether a `one_space` violation has rewritten `message` yet. */
    ghost var rewritten: bool

    /** The field only ever holds the initial template or its rewrite. */
    ghost predicate Valid()
      reads this
    {
      message == if rewritten then RewrittenText else Template
    }

    constructor ()
      ensures Valid() && message == Template && !rewritten
    {
      message := Template;
      rewritten := false;
    }

    /** `lint(config, node)` with `config.spaceAfterPropertyName.style == style`,
        for a declaration node. */
    method Lint(style: string, node: Node) returns (r: LintOutcome)
      requires Valid() && node.content.Children?
      modifies this
      ensures Valid()
      ensures r == Outcome(style, node.content.nodes, old(message))
      ensures message == TemplateAfter(style, node.content.nodes, old(message))
      ensures rewritten == (old(rewritten) || (r.Reported? && style == "one_space"))
    {
      var content := node.content.nodes;
      var checkIndex := FindIndex(content, "property");
      var maybeSpace: Option<Node> := if checkIndex + 1 < |content| then Some(content[checkIndex + 1]) else None;
      var valid := true;
      if style == "no_space" {
        if maybeSpace.None? {
          return Threw(TypeError);
        }
        if maybeSpace.value.kind == "space" {
          valid := false;
        }
      } else if style == "one_space" {
        if maybeSpace.None? {
          return Threw(TypeError);
        }
        if maybeSpace.value.kind != "space"
           || (maybeSpace.value.kind == "space" && maybeSpace.value.content != Text(" ")) {
          valid := false;
          RewriteKeepsTemplate(message);
          message := ReplaceFirst(message, "any", "one");
          rewritten := true;
        }
      } else {
        return Threw(InvalidSetting("Invalid setting value for spaceAfterPropertyName: " + style));
      }
      if !valid {
        r := Reported([Message(Some(maybeSpace.value.start.line), Some(maybeSpace.value.start.column),
                               Sprintf1(message, if style == "no_space" then " not" else ""))]);
      } else {
        r := Undefined;
      }
    }
  }

  /** The element checked is the one right after the first `property`. */
  lemma CheckedElement(content: seq<Node>, i: nat)
    requires i + 1 < |content| && content[i].kind == "property"
    requires forall k :: 0 <= k < i ==> content[k].kind != "property"
    ensures MaybeSpace(content) == Some(content[i + 1])
  {
  }

  /** Without any `property` element the first element is checked. */
  lemma CheckedElementWithoutProperty(content: seq<Node>)
    requires |content| > 0
    requires forall k :: 0 <= k < |content| ==> content[k].kind != "property"
    ensures MaybeSpace(content) == Some(content[0])
  {
  }

  /** `no_space`: reported exactly when the next element is a space, with one
      message at that element's start. */
  lemma NoSpace(content: seq<Node>, i: nat, template: string)
    requires i + 1 < |content| && content[i].kind == "property"
    requires forall k :: 0 <= k < i ==> content[k].kind != "property"
    ensures Outcome("no_space", content, template) ==
              if content[i + 1].kind == "space"
              then Reported([Message(Some(content[i + 1].start.line), Some(content[i + 1].start.column),
                                     Sprintf1(template, " not"))])
              else Undefined
    ensures TemplateAfter("no_space", content, template) == template
  {
    CheckedElement(content, i);
  }

  /** `one_space`: reported exactly when the next element is not a space
      whose text is exactly one blank; the report rewrites the template. */
  lemma OneSpace(content: seq<Node>, i: nat, template: string)
    requires i + 1 < |content| && content[i].kind == "property"
    requires forall k :: 0 <= k < i ==> content[k].kind != "property"
    ensures Outcome("one_space", content, template) ==
              if content[i + 1].kind == "space" && content[i + 1].content == Text(" ")
              then Undefined
              else Reported([Message(Some(content[i + 1].start.line), Some(content[i + 1].start.column),
                                     Sprintf1(ReplaceFirst(template, "any", "one"), ""))])
    ensures TemplateAfter("one_space", content, template) ==
              if content[i + 1].kind == "space" && content[i + 1].content == Text(" ")
              then template
              else ReplaceFirst(template, "any", "one")
  {
    CheckedElement(content, i);
  }

  /** A property that is the last element leaves nothing to read: both known
      styles fail with a TypeError and the template is kept. */
  lemma PropertyLast(style: string, content: seq<Node>, template: string)
    requires style == "no_space" || style == "one_space"
    requires |content| > 0 && content[|content| - 1].kind == "property"
    requires forall k :: 0 <= k < |content| - 1 ==> content[k].kind != "property"
    ensures Outcome(style, content, template) == Threw(TypeError)
    ensures TemplateAfter(style, content, template) == template
  {
  }

  /** Any other style throws, whatever the declaration, and the template is
      kept. */
  lemma UnknownStyle(style: string, content: seq<Node>, template: string)
    requires style != "no_space" && style != "one_space"
    ensures Outcome(style, content, template) ==
              Threw(InvalidSetting("Invalid setting value for spaceAfterPropertyName: " + style))
    ensures TemplateAfter(style, content, template) == template
  {
  }

  /** Every call reports at most one message, placed at the checked element. */
  lemma AtMostOneMessage(style: string, content: seq<Node>, template: string)
    ensures Outcome(style, content, template).Reported? ==>
              MaybeSpace(content).Some? &&
              |Outcome(style, content, template).messages| == 1 &&
              Outcome(style, content, template).messages[0].line == Some(MaybeSpace(content).value.start.line) &&
              Outcome(style, content, template).messages[0].column == Some(MaybeSpace(content).value.start.column)
  {
  }

  /** The `no_space` message with the initial template. */
  lemma NoSpaceText()
    ensures Sprintf1(Template, " not") ==
            "Colon " + "a" + "fter property should" + " not" + " be preceded by " + "any" + " space."
  {
    Sprintf1Text(Template, "Colon " + "a" + "fter property should", " be preceded by " + "any" + " space.", " not",
                 "Colon " + "a" + "fter property should" + " not" + " be preceded by " + "any" + " space.");
  }

  /** The template after a `one_space` violation: the `any` of "any space"
      becomes `one` (the `a` of "after" starts no match). */
  lemma RewrittenTemplate()
    ensures ReplaceFirst(Template, "any", "one") == RewrittenText
  {
    ReplaceFirstText(Template, "Colon ", "a", "fter property should" + "%s" + " be preceded by ", "any", " space.",
                     "one", RewrittenText);
  }

  /** No `any` is left after the rewrite, so a second rewrite (on a later
      violation) changes nothing. */
  lemma RewriteIdempotent()
    ensures ReplaceFirst(RewrittenText, "any", "one") == RewrittenText
  {
    ReplaceFirstAbsent(RewrittenText, "Colon ", "a", "fter property should" + "%s" + " be preceded by " + "one sp",
                       "a", "ce.", "any", "one");
  }

  /** Whichever of the two templates the field holds, the rewrite leaves the
      rewritten one. */
  lemma RewriteKeepsTemplate(m: string)
    requires m == Template || m == RewrittenText
    ensures ReplaceFirst(m, "any", "one") == RewrittenText
  {
    if m == Template {
      RewrittenTemplate();
    } else {
      RewriteIdempotent();
    }
  }

  /** Every message made from the rewritten template, by `one_space` or by
      a `no_space` report after a rewrite: "Colon after property should"
      and the argument, then "be preceded by one space". The `one_space`
      argument is "", so its text reads "should be preceded by one space";
      the `no_space` one is " not", so it reads "should not be preceded by
      one space". */
  lemma RewrittenMessage(arg: string)
    ensures Sprintf1(RewrittenText, arg) ==
            "Colon " + "a" + "fter property should" + arg + " be preceded by " + "one sp" + "a" + "ce."
  {
    Sprintf1Text(RewrittenText, "Colon " + "a" + "fter property should", " be preceded by " + "one sp" + "a" + "ce.", arg,
                 "Colon " + "a" + "fter property should" + arg + " be preceded by " + "one sp" + "a" + "ce.");
  }
}
