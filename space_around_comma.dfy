/** The spaceAroundComma rule: the commas of a declaration's value (or of a
    mixin's selector) are checked for the space before and after them. The
    value is parsed into a tree that is walked in pre-order; while walking,
    the rule strips newlines from the whitespace it reads, in place. */
module SpaceAroundComma {
  import opened LintTypes
  import opened JsStrings

  // The template and the four messages it yields (see the *Formatted
  // lemmas below), written as concatenations of short pieces.
  const Template := "Commas should" + "%s" + " be " + "%s" + " by " + "%s" + " space."

  const AfterMessage := "Commas should" + "" + " be " + "followed" + " by " + "one" + " space."
  const BeforeMessage := "Commas should" + "" + " be " + "preceded" + " by " + "one" + " space."
  const BothMessage := "Commas should" + "" + " be " + "preceded and followed" + " by " + "one" + " space."
  const NoneMessage := "Commas should" + " not" + " be " + "preceded nor followed" + " by " + "any" + " space."

  /** The postcss node the rule is called on: its `type`, its `params`
      (empty when absent), `selector`, `value`, `prop`, `raws.between` and
      `source.start.column`. */
  datatype CssNode = CssNode(kind: string, params: string, selector: string, value: string,
                             prop: string, between: string, column: int)

  /** The text handed to the value parser and the column its first
      character counts from. */
  datatype Target = Target(text: string, column: int)

  /** A node with `params` has its selector parsed; otherwise a declaration
      has its value parsed, which starts after the property name and the
      text between name and value; any other node is not checked. */
  function TargetOf(node: CssNode): Option<Target>
  {
    if node.params != "" then Some(Target(node.selector, node.column))
    else if node.kind == "decl" then Some(Target(node.value, node.column + |node.prop| + |node.between|))
    else None
  }

  /** The parsed value tree, listed in the order `walk` visits it (pre-order):
      each node's `type`, its `source.start.column` and whether it has a
      next sibling. A comma has no children, so its next sibling, when
      there is one, is the node listed right after it. */
  datatype Listing = Listing(kinds: seq<string>, columns: seq<int>, hasNext: seq<bool>)

  ghost predicate WellFormed(l: Listing)
  {
    && |l.columns| == |l.kinds|
    && |l.hasNext| == |l.kinds|
    && forall i :: 0 <= i < |l.hasNext| && l.hasNext[i] ==> i + 1 < |l.hasNext|
  }

  /** `raws.before` and `raws.after` of every listed node. */
  ghost predicate Raws(l: Listing, before: seq<string>, after: seq<string>)
  {
    WellFormed(l) && |before| == |l.kinds| && |after| == |l.kinds|
  }

  datatype Verdict = Pass | Flag(message: string) | Fail(error: LintError)

  /** The style switch for one comma, given its own `raws.before` and its
      next sibling's (`None` when the comma is the last child: reading that
      sibling's raws is then a TypeError). The conditions are evaluated
      left to right, so `both` and `none` only look at the sibling when the
      comma's own whitespace does not settle the matter. */
  function Check(style: string, childBefore: string, nextBefore: Option<string>): Verdict
  {
    if style == "after" then
      if nextBefore.None? then Fail(TypeError)
      else if nextBefore.value != " " then Flag(AfterMessage) else Pass
    else if style == "before" then
      if childBefore != " " then Flag(BeforeMessage) else Pass
    else if style == "both" then
      if childBefore != " " then Flag(BothMessage)
      else if nextBefore.None? then Fail(TypeError)
      else if nextBefore.value != " " then Flag(BothMessage) else Pass
    else if style == "none" then
      if childBefore != "" then Flag(NoneMessage)
      else if nextBefore.None? then Fail(TypeError)
      else if nextBefore.value != "" then Flag(NoneMessage) else Pass
    else Fail(InvalidSetting("Invalid setting value for spaceAfterComma: " + style))
  }

  predicate ValidStyle(style: string)
  {
    style == "after" || style == "before" || style == "both" || style == "none"
  }

  /** Every failure under a known style is a TypeError, and only a comma
      without a next sibling can fail; an unknown style fails on every
      comma. */
  lemma CheckFailures(style: string, childBefore: string, nextBefore: Option<string>)
    ensures ValidStyle(style) && Check(style, childBefore, nextBefore).Fail? ==>
              Check(style, childBefore, nextBefore).error == TypeError && nextBefore.None?
    ensures !ValidStyle(style) ==>
              Check(style, childBefore, nextBefore) ==
              Fail(InvalidSetting("Invalid setting value for spaceAfterComma: " + style))
    ensures ValidStyle(style) && nextBefore.Some? ==> !Check(style, childBefore, nextBefore).Fail?
  {
  }

  /** The raws of the tree, the messages pushed so far and the exception
      thrown, if any, as the walk proceeds. */
  datatype WalkState = WalkState(before: seq<string>, after: seq<string>, messages: seq<Message>,
                                 error: Option<LintError>)

  /** The walk callback applied to node `k`. Once an exception is thrown
      nothing further happens. */
  function Visit(style: string, column: int, l: Listing, s: WalkState, k: nat): (r: WalkState)
    requires Raws(l, s.before, s.after) && k < |l.kinds|
    ensures Raws(l, r.before, r.after)
  {
    if s.error.Some? || l.kinds[k] != "comma" then s
    else
      var before := if l.hasNext[k] && s.before[k + 1] != ""
                    then s.before[k + 1 := StripNewlines(s.before[k + 1])] else s.before;
      var after := if s.after[k] != "" then s.after[k := StripNewlines(s.after[k])] else s.after;
      var nextBefore := if l.hasNext[k] then Some(before[k + 1]) else None;
      match Check(style, before[k], nextBefore)
      case Pass => WalkState(before, after, s.messages, None)
      case Flag(m) => WalkState(before, after, s.messages + [Message(None, Some(column + l.columns[k] - 1), m)], None)
      case Fail(e) => WalkState(before, after, s.messages, Some(e))
  }

  /** The state after the walk has visited the first `k` listed nodes. */
  function Walk(style: string, column: int, l: Listing, before0: seq<string>, after0: seq<string>,
                k: nat): (r: WalkState)
    requires Raws(l, before0, after0) && k <= |l.kinds|
    ensures Raws(l, r.before, r.after)
    decreases k
  {
    if k == 0 then WalkState(before0, after0, [], None)
    else Visit(style, column, l, Walk(style, column, l, before0, after0, k - 1), k - 1)
  }

  /** What `lint` returns for a parsed target: the exception, the list of
      results when it is not empty, and `undefined` otherwise. */
  function Outcome(style: string, column: int, l: Listing, before0: seq<string>,
                   after0: seq<string>): LintOutcome
    requires Raws(l, before0, after0)
  {
    var s := Walk(style, column, l, before0, after0, |l.kinds|);
    if s.error.Some? then Threw(s.error.value)
    else if |s.messages| > 0 then Reported(s.messages)
    else Undefined
  }

  /** An exception ends the walk: later nodes change nothing. */
  lemma {:induction false} WalkStops(style: string, column: int, l: Listing, before0: seq<string>,
                                     after0: seq<string>, k: nat, m: nat)
    requires Raws(l, before0, after0) && k <= m <= |l.kinds|
    requires Walk(style, column, l, before0, after0, k).error.Some?
    ensures Walk(style, column, l, before0, after0, m) == Walk(style, column, l, before0, after0, k)
    decreases m - k
  {
    if m > k {
      WalkStops(style, column, l, before0, after0, k, m - 1);
    }
  }

  // A reference reading of the walk, on the raws as parsed: only the
  // stripping of a comma's next sibling is ever observed later, by that
  // sibling itself when it is a comma too.

  /** The `raws.before` node `j` has once the walk has passed the node
      before it: stripped of newlines if that node is a comma whose next
      sibling it is. */
  function BeforeSeen(l: Listing, before0: seq<string>, j: nat): string
    requires WellFormed(l) && |before0| == |l.kinds| && j < |l.kinds|
  {
    if j > 0 && l.kinds[j - 1] == "comma" && l.hasNext[j - 1] then StripNewlines(before0[j]) else before0[j]
  }

  /** The next sibling's `raws.before` as the comma at `j` reads it. */
  function NextSeen(l: Listing, before0: seq<string>, j: nat): Option<string>
    requires WellFormed(l) && |before0| == |l.kinds| && j < |l.kinds|
  {
    if l.hasNext[j] then Some(StripNewlines(before0[j + 1])) else None
  }

  /** No comma among the first `k` nodes makes the style switch throw. */
  ghost predicate NoFault(style: string, l: Listing, before0: seq<string>, k: nat)
    requires WellFormed(l) && |before0| == |l.kinds| && k <= |l.kinds|
  {
    forall i :: 0 <= i < k && l.kinds[i] == "comma" ==>
      !Check(style, BeforeSeen(l, before0, i), NextSeen(l, before0, i)).Fail?
  }

  /** The messages for the first `k` nodes, each comma judged on its own. */
  function Expected(style: string, column: int, l: Listing, before0: seq<string>, k: nat): seq<Message>
    requires WellFormed(l) && |before0| == |l.kinds| && k <= |l.kinds|
  {
    if k == 0 then []
    else
      var v := Check(style, BeforeSeen(l, before0, k - 1), NextSeen(l, before0, k - 1));
      Expected(style, column, l, before0, k - 1) +
      (if l.kinds[k - 1] == "comma" && v.Flag? then [Message(None, Some(column + l.columns[k - 1] - 1), v.message)]
       else [])
  }

  /** One step of the walk, from a state the reference describes. */
  lemma VisitStep(style: string, column: int, l: Listing, before0: seq<string>, s: WalkState, i: nat)
    requires Raws(l, s.before, s.after) && |before0| == |l.kinds| && i < |l.kinds| && s.error.None?
    requires forall j :: 0 <= j < |l.kinds| ==> s.before[j] == (if j <= i then BeforeSeen(l, before0, j) else before0[j])
    ensures var r := Visit(style, column, l, s, i);
            var v := Check(style, BeforeSeen(l, before0, i), NextSeen(l, before0, i));
            var comma := l.kinds[i] == "comma";
            && (r.error.Some? <==> comma && v.Fail?)
            && (r.error.Some? ==> r.error == Some(v.error))
            && (r.error.None? ==>
                  && r.messages == s.messages +
                                   (if comma && v.Flag? then [Message(None, Some(column + l.columns[i] - 1), v.message)] else [])
                  && forall j :: 0 <= j < |l.kinds| ==>
                       r.before[j] == (if j <= i + 1 then BeforeSeen(l, before0, j) else before0[j]))
  {
    if l.kinds[i] == "comma" {
      var before := if l.hasNext[i] && s.before[i + 1] != ""
                    then s.before[i + 1 := StripNewlines(s.before[i + 1])] else s.before;
      assert before[i] == BeforeSeen(l, before0, i);
      if l.hasNext[i] {
        assert s.before[i + 1] == before0[i + 1];
        assert StripNewlines("") == "";
        assert before[i + 1] == StripNewlines(before0[i + 1]);
      }
      assert forall j :: 0 <= j < |l.kinds| ==> before[j] == (if j <= i + 1 then BeforeSeen(l, before0, j) else before0[j]);
    } else if i + 1 < |l.kinds| {
      assert BeforeSeen(l, before0, i + 1) == before0[i + 1];
    }
  }

  /** While no comma throws, the walk pushes the expected messages and
      leaves every passed node's `raws.before` as `BeforeSeen` says. */
  lemma {:induction false} WalkWithoutFault(style: string, column: int, l: Listing,
                                            before0: seq<string>, after0: seq<string>, k: nat)
    requires Raws(l, before0, after0) && k <= |l.kinds| && NoFault(style, l, before0, k)
    ensures Walk(style, column, l, before0, after0, k).error.None?
    ensures Walk(style, column, l, before0, after0, k).messages == Expected(style, column, l, before0, k)
    ensures forall j :: 0 <= j < |l.kinds| ==>
              Walk(style, column, l, before0, after0, k).before[j] ==
              (if j <= k then BeforeSeen(l, before0, j) else before0[j])
  {
    if k > 0 {
      assert NoFault(style, l, before0, k - 1);
      WalkWithoutFault(style, column, l, before0, after0, k - 1);
      VisitStep(style, column, l, before0, Walk(style, column, l, before0, after0, k - 1), k - 1);
    }
  }

  /** Once a comma throws, the walk has thrown, with the error of the first
      comma whose switch throws: no comma before it fails. */
  lemma {:induction false} WalkFault(style: string, column: int, l: Listing,
                                     before0: seq<string>, after0: seq<string>, k: nat)
    requires Raws(l, before0, after0) && k <= |l.kinds| && !NoFault(style, l, before0, k)
    ensures Walk(style, column, l, before0, after0, k).error.Some?
    ensures exists i :: 0 <= i < k && l.kinds[i] == "comma" && NoFault(style, l, before0, i) &&
              Check(style, BeforeSeen(l, before0, i), NextSeen(l, before0, i)) ==
              Fail(Walk(style, column, l, before0, after0, k).error.value)
  {
    var s := Walk(style, column, l, before0, after0, k - 1);
    if !NoFault(style, l, before0, k - 1) {
      WalkFault(style, column, l, before0, after0, k - 1);
    } else {
      WalkWithoutFault(style, column, l, before0, after0, k - 1);
      VisitStep(style, column, l, before0, s, k - 1);
      assert l.kinds[k - 1] == "comma" &&
             Check(style, BeforeSeen(l, before0, k - 1), NextSeen(l, before0, k - 1)).Fail?;
    }
  }

  /** The walk with its in-place rewriting agrees with the reference: it
      throws exactly when some comma's switch throws, and otherwise pushes
      the expected messages. */
  lemma WalkMatchesReference(style: string, column: int, l: Listing,
                             before0: seq<string>, after0: seq<string>)
    requires Raws(l, before0, after0)
    ensures Walk(style, column, l, before0, after0, |l.kinds|).error.None? <==>
              NoFault(style, l, before0, |l.kinds|)
    ensures NoFault(style, l, before0, |l.kinds|) ==>
              Walk(style, column, l, before0, after0, |l.kinds|).messages ==
              Expected(style, column, l, before0, |l.kinds|)
  {
    if NoFault(style, l, before0, |l.kinds|) {
      WalkWithoutFault(style, column, l, before0, after0, |l.kinds|);
    } else {
      WalkFault(style, column, l, before0, after0, |l.kinds|);
    }
  }

  /** Under a known style the rule throws a TypeError exactly when some
      comma needs a next sibling it does not have, and otherwise reports the
      expected messages, or returns `undefined` when there are none. */
  lemma KnownStyle(style: string, column: int, l: Listing, before0: seq<string>, after0: seq<string>)
    requires Raws(l, before0, after0) && ValidStyle(style)
    ensures Outcome(style, column, l, before0, after0) ==
              if !NoFault(style, l, before0, |l.kinds|) then Threw(TypeError)
              else if |Expected(style, column, l, before0, |l.kinds|)| > 0
              then Reported(Expected(style, column, l, before0, |l.kinds|))
              else Undefined
  {
    var n := |l.kinds|;
    WalkMatchesReference(style, column, l, before0, after0);
    var s := Walk(style, column, l, before0, after0, n);
    if s.error.Some? {
      WalkFault(style, column, l, before0, after0, n);
      var i :| 0 <= i < n && l.kinds[i] == "comma" &&
               Check(style, BeforeSeen(l, before0, i), NextSeen(l, before0, i)) == Fail(s.error.value);
      CheckFailures(style, BeforeSeen(l, before0, i), NextSeen(l, before0, i));
    }
  }

  /** Without a comma nothing is expected. */
  lemma {:induction false} NoCommasNoMessages(style: string, column: int, l: Listing, before0: seq<string>, k: nat)
    requires WellFormed(l) && |before0| == |l.kinds| && k <= |l.kinds|
    requires forall i :: 0 <= i < k ==> l.kinds[i] != "comma"
    ensures Expected(style, column, l, before0, k) == []
  {
    if k > 0 {
      NoCommasNoMessages(style, column, l, before0, k - 1);
    }
  }

  /** An unknown style throws, at the first comma, and only if there is
      one: a value without commas is `undefined` whatever the style. */
  lemma UnknownStyle(style: string, column: int, l: Listing, before0: seq<string>, after0: seq<string>)
    requires Raws(l, before0, after0) && !ValidStyle(style)
    ensures Outcome(style, column, l, before0, after0) ==
              if exists i :: 0 <= i < |l.kinds| && l.kinds[i] == "comma"
              then Threw(InvalidSetting("Invalid setting value for spaceAfterComma: " + style))
              else Undefined
  {
    var n := |l.kinds|;
    var s := Walk(style, column, l, before0, after0, n);
    if exists i :: 0 <= i < n && l.kinds[i] == "comma" {
      var i :| 0 <= i < n && l.kinds[i] == "comma";
      CheckFailures(style, BeforeSeen(l, before0, i), NextSeen(l, before0, i));
      assert !NoFault(style, l, before0, n);
      WalkFault(style, column, l, before0, after0, n);
      var j :| 0 <= j < n && l.kinds[j] == "comma" &&
               Check(style, BeforeSeen(l, before0, j), NextSeen(l, before0, j)) == Fail(s.error.value);
      CheckFailures(style, BeforeSeen(l, before0, j), NextSeen(l, before0, j));
    } else {
      WalkWithoutFault(style, column, l, before0, after0, n);
      NoCommasNoMessages(style, column, l, before0, n);
    }
  }

  /** Under the `after` style a comma that is the last child throws, and a
      comma is flagged exactly when its next sibling's whitespace, newlines
      removed, is not one space. */
  lemma AfterStyle(column: int, l: Listing, before0: seq<string>, i: nat)
    requires WellFormed(l) && |before0| == |l.kinds| && i < |l.kinds| && l.kinds[i] == "comma"
    ensures Check("after", BeforeSeen(l, before0, i), NextSeen(l, before0, i)).Fail? <==> !l.hasNext[i]
    ensures Check("after", BeforeSeen(l, before0, i), NextSeen(l, before0, i)).Flag? <==>
              l.hasNext[i] && StripNewlines(before0[i + 1]) != " "
  {
  }

  /** Under the `before` style a comma never throws and is flagged exactly
      when its own whitespace, as the walk left it, is not one space. */
  lemma BeforeStyle(l: Listing, before0: seq<string>, i: nat)
    requires WellFormed(l) && |before0| == |l.kinds| && i < |l.kinds|
    ensures !Check("before", BeforeSeen(l, before0, i), NextSeen(l, before0, i)).Fail?
    ensures Check("before", BeforeSeen(l, before0, i), NextSeen(l, before0, i)).Flag? <==>
              BeforeSeen(l, before0, i) != " "
  {
  }

  /** Under the `both` style a comma is flagged when either side is not one
      space; it throws only when its own side is fine and it is the last
      child. */
  lemma BothStyle(l: Listing, before0: seq<string>, i: nat)
    requires WellFormed(l) && |before0| == |l.kinds| && i < |l.kinds|
    ensures Check("both", BeforeSeen(l, before0, i), NextSeen(l, before0, i)).Fail? <==>
              BeforeSeen(l, before0, i) == " " && !l.hasNext[i]
    ensures Check("both", BeforeSeen(l, before0, i), NextSeen(l, before0, i)).Flag? <==>
              BeforeSeen(l, before0, i) != " " || (l.hasNext[i] && StripNewlines(before0[i + 1]) != " ")
  {
  }

  /** Under the `none` style a comma is flagged when either side has any
      whitespace; it throws only when its own side is empty and it is the
      last child. */
  lemma NoneStyle(l: Listing, before0: seq<string>, i: nat)
    requires WellFormed(l) && |before0| == |l.kinds| && i < |l.kinds|
    ensures Check("none", BeforeSeen(l, before0, i), NextSeen(l, before0, i)).Fail? <==>
              BeforeSeen(l, before0, i) == "" && !l.hasNext[i]
    ensures Check("none", BeforeSeen(l, before0, i), NextSeen(l, before0, i)).Flag? <==>
              BeforeSeen(l, before0, i) != "" || (l.hasNext[i] && StripNewlines(before0[i + 1]) != "")
  {
  }

  /** The number of commas among the first `k` nodes. */
  function CommaCount(l: Listing, k: nat): nat
    requires k <= |l.kinds|
  {
    if k == 0 then 0 else CommaCount(l, k - 1) + (if l.kinds[k - 1] == "comma" then 1 else 0)
  }

  /** At most one message per comma. */
  lemma {:induction false} AtMostOnePerComma(style: string, column: int, l: Listing, before0: seq<string>, k: nat)
    requires WellFormed(l) && |before0| == |l.kinds| && k <= |l.kinds|
    ensures |Expected(style, column, l, before0, k)| <= CommaCount(l, k)
  {
    if k > 0 {
      AtMostOnePerComma(style, column, l, before0, k - 1);
    }
  }

  /** `m` is the message of a comma among the first `k` nodes: it has no
      line and the comma's column, counted from the target's column. */
  ghost predicate FromComma(l: Listing, column: int, m: Message, k: nat)
    requires WellFormed(l) && k <= |l.kinds|
  {
    m.line == None && exists i :: 0 <= i < k && l.kinds[i] == "comma" && m.column == Some(column + l.columns[i] - 1)
  }

  /** Every expected message is a comma's. */
  lemma {:induction false} ExpectedColumns(style: string, column: int, l: Listing, before0: seq<string>, k: nat)
    requires WellFormed(l) && |before0| == |l.kinds| && k <= |l.kinds|
    ensures forall m :: m in Expected(style, column, l, before0, k) ==> FromComma(l, column, m, k)
  {
    if k > 0 {
      ExpectedColumns(style, column, l, before0, k - 1);
      var prefix := Expected(style, column, l, before0, k - 1);
      var v := Check(style, BeforeSeen(l, before0, k - 1), NextSeen(l, before0, k - 1));
      var tail := if l.kinds[k - 1] == "comma" && v.Flag?
                  then [Message(None, Some(column + l.columns[k - 1] - 1), v.message)] else [];
      assert Expected(style, column, l, before0, k) == prefix + tail;
      forall m | m in prefix + tail
        ensures FromComma(l, column, m, k)
      {
        if m in prefix {
          assert FromComma(l, column, m, k - 1);
        } else {
          assert m == tail[0];
        }
      }
    }
  }

  // What `util.format` builds from the template for each style.

  lemma AfterFormatted()
    ensures Format3(Template, "", "followed", "one") == AfterMessage
  {
    Format3Text(Template, "Commas should", " be ", " by ", " space.", "", "followed", "one", AfterMessage);
  }

  lemma BeforeFormatted()
    ensures Format3(Template, "", "preceded", "one") == BeforeMessage
  {
    Format3Text(Template, "Commas should", " be ", " by ", " space.", "", "preceded", "one", BeforeMessage);
  }

  lemma BothFormatted()
    ensures Format3(Template, "", "preceded and followed", "one") == BothMessage
  {
    Format3Text(Template, "Commas should", " be ", " by ", " space.", "", "preceded and followed", "one",
                BothMessage);
  }

  lemma NoneFormatted()
    ensures Format3(Template, " not", "preceded nor followed", "any") == NoneMessage
  {
    Format3Text(Template, "Commas should", " be ", " by ", " space.", " not", "preceded nor followed", "any",
                NoneMessage);
  }

  // `color: rgb(255,255,255);` under the `after` style: the value starts at
  // column 8 and its tree is the function `rgb` holding the parentheses,
  // the numbers and the commas at columns 8 and 12 of the value, all
  // without whitespace.

  const RgbDeclaration := CssNode("decl", "", "", "rgb(255,255,255)", "color", ": ", 1)

  const RgbListing := Listing(["func", "paren", "number", "comma", "number", "comma", "number", "paren"],
                              [1, 4, 5, 8, 9, 12, 13, 16],
                              [false, true, true, true, true, true, true, false])

  const NoWhitespace := ["", "", "", "", "", "", "", ""]

  lemma RgbTarget()
    ensures TargetOf(RgbDeclaration) == Some(Target("rgb(255,255,255)", 8))
  {
  }

  lemma RgbNoFault()
    ensures WellFormed(RgbListing) && NoFault("after", RgbListing, NoWhitespace, 8)
  {
    forall i | 0 <= i < 8 && RgbListing.kinds[i] == "comma"
      ensures RgbListing.hasNext[i]
    {
      assert i != 0 && i != 7;
    }
  }

  lemma RgbExpected()
    ensures WellFormed(RgbListing)
    ensures Expected("after", 8, RgbListing, NoWhitespace, 8) ==
              [Message(None, Some(15), AfterMessage), Message(None, Some(19), AfterMessage)]
  {
  }

  /** Both commas are reported, at columns 15 and 19 of the line. */
  lemma RgbWithoutSpaces()
    ensures Raws(RgbListing, NoWhitespace, NoWhitespace)
    ensures Outcome("after", 8, RgbListing, NoWhitespace, NoWhitespace) ==
              Reported([Message(None, Some(15), AfterMessage), Message(None, Some(19), AfterMessage)])
  {
    RgbNoFault();
    RgbExpected();
    KnownStyle("after", 8, RgbListing, NoWhitespace, NoWhitespace);
  }

  /** The parsed value tree whose raws the walk rewrites. */
  class ValueAst {
    const listing: Listing
    const before: array<string>
    const after: array<string>

    ghost predicate Valid()
      reads this
    {
      WellFormed(listing) && before.Length == |listing.kinds| && after.Length == |listing.kinds| &&
      before != after
    }

    constructor (listing: Listing, before0: seq<string>, after0: seq<string>)
      requires Raws(listing, before0, after0)
      ensures Valid() && this.listing == listing
      ensures before[..] == before0 && after[..] == after0
      ensures fresh(before) && fresh(after)
    {
      this.listing := listing;
      before := new string[|before0|](i => if 0 <= i < |before0| then before0[i] else "");
      after := new string[|after0|](i => if 0 <= i < |after0| then after0[i] else "");
    }

    /** The listing and the current raws. */
    ghost predicate Holds(l: Listing, s: WalkState)
      reads this, before, after
    {
      l == listing && before[..] == s.before && after[..] == s.after
    }
  }

  /** The walk callback on node `i` of `ast`: a comma has the newlines
      stripped from its next sibling's `raws.before` and its own
      `raws.after`, is judged, and a message is pushed when it is flagged. */
  method VisitNode(style: string, column: int, ast: ValueAst, i: nat, results: seq<Message>)
    returns (results': seq<Message>, error: Option<LintError>)
    requires ast.Valid() && i < |ast.listing.kinds|
    modifies ast.before, ast.after
    ensures var s := Visit(style, column, ast.listing,
                           WalkState(old(ast.before[..]), old(ast.after[..]), results, None), i);
            ast.before[..] == s.before && ast.after[..] == s.after && results' == s.messages &&
            error == s.error
  {
    results', error := results, None;
    var l := ast.listing;
    if l.kinds[i] != "comma" {
      return;
    }
    var hasNext := l.hasNext[i];
    if hasNext && ast.before[i + 1] != "" {
      ast.before[i + 1] := StripNewlines(ast.before[i + 1]);
    }
    if ast.after[i] != "" {
      ast.after[i] := StripNewlines(ast.after[i]);
    }
    var verdict := Check(style, ast.before[i], if hasNext then Some(ast.before[i + 1]) else None);
    if verdict.Fail? {
      error := Some(verdict.error);
    } else if verdict.Flag? {
      results' := results + [Message(None, Some(column + l.columns[i] - 1), verdict.message)];
    }
  }

  /** `lint(config, node)` with `config.style == style`, where `ast` is the
      parse of the node's target: `undefined` for a node without one, and
      otherwise the outcome of the walk, which leaves the raws of `ast` as
      the walk rewrote them. */
  method Lint(style: string, node: CssNode, ast: ValueAst) returns (r: LintOutcome)
    requires ast.Valid()
    modifies ast.before, ast.after
    ensures TargetOf(node).None? ==>
              r == Undefined && ast.before[..] == old(ast.before[..]) && ast.after[..] == old(ast.after[..])
    ensures TargetOf(node).Some? ==>
              var s := Walk(style, TargetOf(node).value.column, ast.listing, old(ast.before[..]),
                            old(ast.after[..]), |ast.listing.kinds|);
              r == Outcome(style, TargetOf(node).value.column, ast.listing, old(ast.before[..]),
                           old(ast.after[..])) &&
              ast.before[..] == s.before && ast.after[..] == s.after
  {
    var target := TargetOf(node);
    if target.None? {
      return Undefined;
    }
    var column := target.value.column;
    var l := ast.listing;
    ghost var before0 := ast.before[..];
    ghost var after0 := ast.after[..];
    var n := |l.kinds|;
    var results: seq<Message> := [];
    var i := 0;
    while i < n
      invariant 0 <= i <= n
      invariant ast.Valid()
      invariant ast.Holds(l, Walk(style, column, l, before0, after0, i))
      invariant Walk(style, column, l, before0, after0, i).error.None?
      invariant results == Walk(style, column, l, before0, after0, i).messages
    {
      assert Walk(style, column, l, before0, after0, i + 1) ==
             Visit(style, column, l, Walk(style, column, l, before0, after0, i), i);
      var error;
      results, error := VisitNode(style, column, ast, i, results);
      if error.Some? {
        WalkStops(style, column, l, before0, after0, i + 1, n);
        return Threw(error.value);
      }
      i := i + 1;
    }
    if |results| > 0 {
      r := Reported(results);
    } else {
      r := Undefined;
    }
  }
}
