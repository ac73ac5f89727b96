/** The hexLength rule: hexadecimal colours are written in the long
    (`#rrggbb`) or the short (`#rgb`) form, as configured. */
module HexLength {
  import opened LintTypes
  import opened JsStrings

  const Template := "%s" + (" should be written in the " + "%s" + "-form format.")

  /** A character matched by `[0-9a-f]` under the `i` flag. */
  predicate IsHexDigit(c: char)
  {
    ('0' <= c <= '9') || ('a' <= c <= 'f') || ('A' <= c <= 'F')
  }

  /** `/^#[0-9a-f]{n}$/i.test(s)`. */
  predicate IsHexColor(s: string, n: nat)
  {
    |s| == n + 1 && s[0] == '#' && forall k :: 1 <= k < |s| ==> IsHexDigit(s[k])
  }

  /** The message `sprintf` builds from the template. */
  lemma MessageText(color: string, style: string)
    ensures Sprintf2(Template, color, style) == color + (" should be written in the " + style + "-form format.")
  {
    Sprintf2Lead(" should be written in the ", "-form format.", color, style);
  }

  /** `lint(config, node)` with `config.hexLength.style == style`, for a
      colour node whose text (the digits after `#`) is `content`. */
  function Lint(style: string, content: string): (r: LintOutcome)
    // The regular expressions keep no case apart: only the length and, for
    // the short style, the pairs of equal digits decide.
    ensures style == "long" ==> (r.Reported? <==> |content| == 3)
    ensures style == "short" ==>
              (r.Reported? <==>
                 |content| == 6 && content[0] == content[1] && content[2] == content[3] &&
                 content[4] == content[5])
    ensures (style == "long" || style == "short") && !r.Reported? ==> r == Undefined
    ensures style != "long" && style != "short" ==>
              r == Threw(InvalidSetting("Invalid setting value for hexLength: " + style))
    ensures r.Reported? ==>
              r.messages == [Message(None, None, "#" + content + (" should be written in the " +
                                                 style + "-form format."))]
  {
    var color := "#" + content;
    var valid :=
      if style == "long" then !(|color| == 4 && !IsHexColor(color, 6))
      else if style == "short" then
        !(|color| == 7 && color[1] == color[2] && color[3] == color[4] && color[5] == color[6] &&
          !IsHexColor(color, 3))
      else true;
    if style != "long" && style != "short" then
      Threw(InvalidSetting("Invalid setting value for hexLength: " + style))
    else if !valid then
      MessageText(color, style);
      Reported([Message(None, None, Sprintf2(Template, color, style))])
    else Undefined
  }

  /** The long form of a three-digit colour: every digit doubled, as section
      5.2 of CSS Color Module Level 4 reads the short notation. */
  function Expand(short: string): (r: string)
    requires |short| == 3
    ensures |r| == 6
    ensures forall k :: 0 <= k < 6 ==> r[k] == short[k / 2]
  {
    [short[0], short[0], short[1], short[1], short[2], short[2]]
  }

  /** The digits a six-digit colour keeps in the short form. */
  function Shorten(long: string): (r: string)
    requires |long| == 6
    ensures |r| == 3
    ensures forall k :: 0 <= k < 3 ==> r[k] == long[2 * k]
  {
    [long[0], long[2], long[4]]
  }

  /** A six-digit colour the short style flags is one `Shorten` loses
      nothing of. */
  predicate CanShorten(long: string)
  {
    |long| == 6 && long[0] == long[1] && long[2] == long[3] && long[4] == long[5]
  }

  lemma ExpandShortenRoundTrip(short: string, long: string)
    requires |short| == 3 && |long| == 6
    ensures Shorten(Expand(short)) == short
    ensures CanShorten(Expand(short))
    ensures CanShorten(long) ==> Expand(Shorten(long)) == long
  {
  }

  /** The two styles agree on what the other form of a colour is: each
      flags a colour exactly when the other accepts its rewriting. */
  lemma StylesAgreeOnForms(short: string, long: string)
    requires |short| == 3 && CanShorten(long)
    ensures Lint("long", short).Reported? && Lint("long", Expand(short)) == Undefined
    ensures Lint("short", Expand(short)).Reported? && Lint("short", short) == Undefined
    ensures Lint("short", long).Reported? && Lint("short", Shorten(long)) == Undefined
  {
    ExpandShortenRoundTrip(short, long);
  }

  /** A six-digit colour that cannot be shortened is accepted by both
      styles. */
  lemma UnshortenableAcceptedByBoth(long: string)
    requires |long| == 6 && !CanShorten(long)
    ensures Lint("long", long) == Undefined && Lint("short", long) == Undefined
  {
  }

  /** Neither style looks at whether the digits are hexadecimal: `#xyz` is
      flagged by the long style. */
  lemma DigitsAreNotChecked()
    ensures Lint("long", "xyz") ==
              Reported([Message(None, None, "#xyz" + (" should be written in the " + "long" + "-form format."))])
  {
    assert "#" + "xyz" == "#xyz";
  }
}
