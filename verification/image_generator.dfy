/** The pure text part of the SVG image service: the mood configuration
    table, mood naming, and the two functions that splice a message and a
    mood label into an SVG document in front of its first closing tag. */
module ImageGenerator {
  import opened Wrappers
  import opened Text

  datatype Colors = Colors(primary: string, secondary: string)

  /** One entry of the configuration table. The filter, rotation and scale
      values of the table are not part of this model. */
  datatype MoodConfig = MoodConfig(name: string, colors: Colors)

  /** The configuration table, indexed by mood code. */
  const MoodConfigs: seq<MoodConfig> := [
    MoodConfig("Happy", Colors("#FFD700", "#FFA500")),
    MoodConfig("Sad", Colors("#87CEEB", "#4169E1")),
    MoodConfig("Anger", Colors("#FF6347", "#DC143C")),
    MoodConfig("Fear", Colors("#9370DB", "#8B4789")),
    MoodConfig("Surprise", Colors("#FFB6C1", "#FF69B4")),
    MoodConfig("Boredom", Colors("#808080", "#A9A9A9")),
    MoodConfig("Shame", Colors("#E6E6FA", "#DDA0DD")),
    MoodConfig("Determination", Colors("#000000", "#333333")),
    MoodConfig("Excitement", Colors("#FF1493", "#FF69B4")),
    MoodConfig("Kawaii", Colors("#FFB6DE", "#FF69B4")),
    MoodConfig("Sleepy", Colors("#FFFACD", "#FFE4B5")),
    MoodConfig("Mischievous", Colors("#00FF00", "#32CD32"))
  ]

  const UnknownMood := "Unknown"

  /** Property lookup in the table: present for the twelve configured codes. */
  function ConfigOf(moodIndex: int): (r: Option<MoodConfig>)
    ensures r.Some? <==> 0 <= moodIndex <= 11
  {
    if 0 <= moodIndex < |MoodConfigs| then Some(MoodConfigs[moodIndex]) else None
  }

  /** The configured name of a mood, `Unknown` for any other index. */
  function MoodName(moodIndex: int): (r: string)
    ensures 0 <= moodIndex <= 11 ==> r == MoodConfigs[moodIndex].name
    ensures !(0 <= moodIndex <= 11) ==> r == UnknownMood
  {
    match ConfigOf(moodIndex)
    case Some(config) => config.name
    case None => UnknownMood
  }

  /** No configured name reads `Unknown`, so the fallback is recognisable:
      the name is `Unknown` exactly for the unconfigured indices. */
  lemma MoodNameUnknownIff(moodIndex: int)
    ensures MoodName(moodIndex) == UnknownMood <==> !(0 <= moodIndex <= 11)
  {
    if 0 <= moodIndex <= 11 {
      assert MoodConfigs[moodIndex].name[0] != 'U';
    }
  }

  /** Distinct configured moods have distinct names. */
  lemma MoodNamesDistinct(i: int, j: int)
    requires 0 <= i <= 11 && 0 <= j <= 11 && i != j
    ensures MoodName(i) != MoodName(j)
  {
  }

  /** The configuration the image generator draws with: the mood's own, or
      mood 0's for an index the table lacks. */
  function ConfigFor(moodIndex: int): (c: MoodConfig)
    ensures c in MoodConfigs
    ensures ConfigOf(moodIndex).Some? ==> c.name == MoodName(moodIndex)
    ensures ConfigOf(moodIndex).None? ==> c == MoodConfigs[0]
  {
    ConfigOf(moodIndex).GetOr(MoodConfigs[0])
  }

  // ---------------------------------------------------------------------
  // Splicing text into the document
  // ---------------------------------------------------------------------

  const SvgClose := "</svg>"
  const MaxDisplayedMessage := 50

  /** `message.substring(0, 50)`. */
  function DisplayMessage(message: string): (r: string)
    ensures |r| <= MaxDisplayedMessage && |r| <= |message| && r == message[..|r|]
    ensures |message| <= MaxDisplayedMessage ==> r == message
    ensures |message| > MaxDisplayedMessage ==> |r| == MaxDisplayedMessage
  {
    if |message| <= MaxDisplayedMessage then message else message[..MaxDisplayedMessage]
  }

  // The fixed text of the two elements, in short pieces.
  const MessageOpen := "\n    <text x=\"200\" y=\"350\""
  const MessageFont := " font-size=\"14\" text-anchor=\"middle\""
  const LabelOpen := "\n    <text x=\"200\" y=\"375\""
  const LabelFont := " font-size=\"16\" text-anchor=\"middle\""
  const FillOpen := " fill=\""
  const FillClose := "\" font-family=\"Arial\""
  const BoldOpen := " font-weight=\"bold\">\n      "
  const Quote := "\""
  const TextClose := "\n    </text>\n  "

  function MessageHead(color: string): string {
    MessageOpen + MessageFont + FillOpen + color + FillClose + BoldOpen + Quote
  }

  const MessageTail := Quote + TextClose

  /** The text element that shows a message, quoted, in the given colour. */
  function MessageElement(display: string, color: string): string {
    MessageHead(color) + display + MessageTail
  }

  /** The text element that shows a mood name in the given colour. */
  function LabelElement(moodName: string, color: string): string {
    LabelOpen + LabelFont + FillOpen + color + FillClose + BoldOpen + moodName + TextClose
  }

  /** `r` is `s` with something put in at position `i`: the text before
      `i` and the text from `i` on are both still there, in place. */
  predicate KeepsAround(s: string, r: string, i: nat)
    requires i <= |s|
  {
    |r| >= |s| && r[..i] == s[..i] && r[|r| - (|s| - i)..] == s[i..]
  }

  predicate Contains(s: string, t: string) {
    exists j | 0 <= j <= |s| :: OccursAt(s, t, j)
  }

  /** `addMessageText` as written: an empty or whitespace-only message leaves
      the document alone; otherwise the element for the first 50 characters
      goes through `replace('</svg>', element + '</svg>')`, whose replacement
      string is subject to `$` pattern expansion. */
  function AddMessageText(svg: string, message: string, color: string): (r: string)
    ensures IsBlank(message) ==> r == svg
    ensures IndexOf(svg, SvgClose).None? ==> r == svg
  {
    if NothingToShow(message) then svg
    else ReplaceCloseWithMessage(svg, DisplayMessage(message), color)
  }

  /** `svg.replace('</svg>', textElement + '</svg>')` for the message
      element: the document before and after the first closing tag stays. */
  function ReplaceCloseWithMessage(svg: string, display: string, color: string): (r: string)
    ensures IndexOf(svg, SvgClose).None? ==> r == svg
    ensures IndexOf(svg, SvgClose).Some? ==>
      var i := IndexOf(svg, SvgClose).value;
      KeepsAround(svg, r, i)
  {
    var element := MessageElement(display, color);
    MessageElementEnd(display, color);
    AddMessageShape(svg, element);
    ReplaceFirst(svg, SvgClose, element + SvgClose)
  }

  /** The guard of `addMessageText`: a missing message, or one that is
      empty after trimming, adds nothing. */
  function NothingToShow(message: string): (b: bool)
    ensures b <==> IsBlank(message)
  {
    TrimEmptyIffBlank(message);
    message == [] || Trim(message) == []
  }

  /** Whatever the message, the as-written step keeps the document in front
      of the first closing tag and everything from that tag on; only what
      goes in between is subject to expansion. */
  lemma AddMessageTextKeepsDocument(svg: string, message: string, color: string)
    requires !IsBlank(message) && IndexOf(svg, SvgClose).Some?
    ensures var r := AddMessageText(svg, message, color);
      var i := IndexOf(svg, SvgClose).value;
      KeepsAround(svg, r, i)
  {
    var display := DisplayMessage(message);
    assert AddMessageText(svg, message, color) == ReplaceCloseWithMessage(svg, display, color);
  }

  /** `addMessageText` with the element inserted literally, the behaviour
      the function is evidently meant to have. */
  function AddMessageTextLiteral(svg: string, message: string, color: string): (r: string)
    ensures IsBlank(message) ==> r == svg
    ensures IndexOf(svg, SvgClose).None? ==> r == svg
    ensures !IsBlank(message) && IndexOf(svg, SvgClose).Some? ==>
      var i := IndexOf(svg, SvgClose).value;
      var element := MessageElement(DisplayMessage(message), color);
      |r| == |svg| + |element| && r[..i] == svg[..i] && r[i..i + |element|] == element && r[i + |element|..] == svg[i..]
  {
    if NothingToShow(message) then svg
    else InsertBeforeFirst(svg, SvgClose, MessageElement(DisplayMessage(message), color))
  }

  /** `addMoodLabel`: the label element goes in front of the first closing
      tag, whatever the document holds. */
  function AddMoodLabel(svg: string, moodName: string, color: string): (r: string)
    requires NoDollar(moodName) && NoDollar(color)
    ensures IndexOf(svg, SvgClose).None? ==> r == svg
    ensures IndexOf(svg, SvgClose).Some? ==>
      var i := IndexOf(svg, SvgClose).value;
      var tag := LabelElement(moodName, color);
      |r| == |svg| + |tag| && r[..i] == svg[..i] && r[i..i + |tag|] == tag && r[i + |tag|..] == svg[i..]
  {
    LabelNoDollar(moodName, color);
    ReplaceIsInsert(svg, SvgClose, LabelElement(moodName, color));
    ReplaceFirst(svg, SvgClose, LabelElement(moodName, color) + SvgClose)
  }

  /** The message and label steps of `generateMoodSVG` as written, applied
      to the document `styled` that the styling steps produced from the
      template: whatever the message, the mood label of the configuration in
      use ends up in a document that has a closing tag. */
  function DecorateSvg(styled: string, moodIndex: int, message: string): (r: string)
    ensures Contains(styled, SvgClose) ==>
      Contains(r, LabelElement(ConfigFor(moodIndex).name, ConfigFor(moodIndex).colors.secondary))
    ensures !Contains(styled, SvgClose) ==> r == styled
  {
    var config := ConfigFor(moodIndex);
    ConfigNoDollar(moodIndex);
    var withMessage := AddMessageText(styled, message, config.colors.primary);
    AsWrittenStepKeepsClose(styled, message, config.colors.primary);
    var r := AddMoodLabel(withMessage, config.name, config.colors.secondary);
    LabelStepInserts(withMessage, config.name, config.colors.secondary);
    r
  }

  /** The same two steps with the message element inserted literally, the
      composition `generateMoodSVG` is evidently meant to perform. */
  function DecorateSvgCorrected(styled: string, moodIndex: int, message: string): (r: string)
    ensures Contains(styled, SvgClose) ==>
      Contains(r, LabelElement(ConfigFor(moodIndex).name, ConfigFor(moodIndex).colors.secondary))
    ensures !Contains(styled, SvgClose) ==> r == styled
  {
    var config := ConfigFor(moodIndex);
    ConfigNoDollar(moodIndex);
    var withMessage := AddMessageTextLiteral(styled, message, config.colors.primary);
    MessageStepKeepsClose(styled, message, config.colors.primary);
    var r := AddMoodLabel(withMessage, config.name, config.colors.secondary);
    LabelStepInserts(withMessage, config.name, config.colors.secondary);
    r
  }

  // ---------------------------------------------------------------------
  // The replacement-pattern discrepancy of addMessageText
  // ---------------------------------------------------------------------

  /** For a displayed message and colour without `$`, the as-written step
      and the literal insertion agree. */
  lemma {:induction false} AddMessageTextAgrees(svg: string, message: string, color: string)
    requires NoDollar(DisplayMessage(message)) && NoDollar(color)
    ensures AddMessageText(svg, message, color) == AddMessageTextLiteral(svg, message, color)
  {
    TrimEmptyIffBlank(message);
    if !IsBlank(message) {
      var element := MessageElement(DisplayMessage(message), color);
      HeadNoDollar(color);
      assert NoDollar(element);
      ReplaceIsInsert(svg, SvgClose, element);
    }
  }

  /** The message `$&` is not shown: the as-written step puts the matched
      closing tag where the message should be, so the result differs from
      the literal insertion. */
  lemma DollarAmpersandMessage(svg: string, color: string)
    requires Contains(svg, SvgClose) && NoDollar(color)
    ensures IndexOf(svg, SvgClose).Some?
    ensures var i := IndexOf(svg, SvgClose).value;
      AddMessageText(svg, "$&", color)
        == svg[..i] + MessageHead(color) + SvgClose + MessageTail + svg[i..]
    ensures AddMessageText(svg, "$&", color) != AddMessageTextLiteral(svg, "$&", color)
  {
    IndexOfFromContains(svg, SvgClose);
    var i := IndexOf(svg, SvgClose).value;
    var head := MessageHead(color);
    DollarAmpersandExpansion(svg, color);
    CharAfter4(svg[..i], head, SvgClose, MessageTail + svg[i..]);
    AppendShift(svg[..i] + head + SvgClose, MessageTail, svg[i..], []);
    var element := MessageElement("$&", color);
    CharAfter(head, "$&", MessageTail);
    CharInSlice(AddMessageTextLiteral(svg, "$&", color), i, element, |head|);
    DiffersAt(AddMessageText(svg, "$&", color), AddMessageTextLiteral(svg, "$&", color), i + |head|);
  }

  lemma CharAfter4(a: string, h: string, t: string, q: string)
    requires |t| > 0
    ensures |a + h + t + q| > |a| + |h| && (a + h + t + q)[|a| + |h|] == t[0]
  {
  }

  lemma CharInSlice(r: string, i: nat, e: string, k: nat)
    requires i + |e| <= |r| && r[i..i + |e|] == e && k < |e|
    ensures r[i + k] == e[k]
  {
    assert r[i..i + |e|][k] == r[i + k];
  }

  lemma DiffersAt(a: string, b: string, k: nat)
    requires k < |a| && k < |b| && a[k] != b[k]
    ensures a != b
  {
  }

  /** The character just after `p` in `p + t + q` is the first of `t`. */
  lemma CharAfter(p: string, t: string, q: string)
    requires |t| > 0
    ensures |p + t + q| > |p| && (p + t + q)[|p|] == t[0]
  {
  }

  /** With the message `$&` the as-written composition closes the document
      early: the message step puts a closing tag inside the message's text
      element, and the label step then splices the mood label in at a
      position `p` inside that element's opening part, ahead of the early
      closing tag and the message's closing `</text>`. */
  lemma DollarAmpersandLabel(styled: string, moodIndex: int) returns (p: nat)
    requires Contains(styled, SvgClose)
    ensures IndexOf(styled, SvgClose).Some?
    ensures var i := IndexOf(styled, SvgClose).value;
      var config := ConfigFor(moodIndex);
      var head := MessageHead(config.colors.primary);
      var w := styled[..i] + head + SvgClose + MessageTail + styled[i..];
      && i < p <= i + |head|
      && DecorateSvg(styled, moodIndex, "$&")
           == w[..p] + LabelElement(config.name, config.colors.secondary) + w[p..]
  {
    var config := ConfigFor(moodIndex);
    ConfigNoDollar(moodIndex);
    p := LabelInsideMessage(styled, config.colors.primary, config.name, config.colors.secondary);
  }

  /** `DollarAmpersandLabel` for any colours and mood name without `$`. */
  lemma LabelInsideMessage(styled: string, primary: string, moodName: string, secondary: string) returns (p: nat)
    requires Contains(styled, SvgClose)
    requires NoDollar(primary) && NoDollar(moodName) && NoDollar(secondary)
    ensures IndexOf(styled, SvgClose).Some?
    ensures var i := IndexOf(styled, SvgClose).value;
      var head := MessageHead(primary);
      var w := styled[..i] + head + SvgClose + MessageTail + styled[i..];
      && i < p <= i + |head|
      && AddMoodLabel(AddMessageText(styled, "$&", primary), moodName, secondary)
           == w[..p] + LabelElement(moodName, secondary) + w[p..]
  {
    IndexOfFromContains(styled, SvgClose);
    var i := IndexOf(styled, SvgClose).value;
    var head := MessageHead(primary);
    DollarAmpersandMessage(styled, primary);
    HeadStartsLine(primary);
    var w;
    p, w := FirstCloseInHead(styled, i, head, MessageTail);
    assert AddMessageText(styled, "$&", primary) == w;
    LabelSpliced(w, moodName, secondary);
  }

  /** The label step splices the label in at the first closing tag. */
  lemma LabelSpliced(w: string, moodName: string, color: string)
    requires NoDollar(moodName) && NoDollar(color) && IndexOf(w, SvgClose).Some?
    ensures var p := IndexOf(w, SvgClose).value;
      AddMoodLabel(w, moodName, color) == w[..p] + LabelElement(moodName, color) + w[p..]
  {
    Spliced(w, AddMoodLabel(w, moodName, color), LabelElement(moodName, color), IndexOf(w, SvgClose).value);
  }

  /** When `head` starts with a newline and a closing tag follows it, the
      first closing tag of the spliced document lies past `i` and no later
      than the end of `head`. */
  lemma FirstCloseInHead(styled: string, i: nat, head: string, tail: string) returns (p: nat, w: string)
    requires IndexOf(styled, SvgClose) == Some(i)
    requires |head| > 0 && head[0] == '\n'
    ensures w == styled[..i] + head + SvgClose + tail + styled[i..]
    ensures IndexOf(w, SvgClose) == Some(p) && i < p <= i + |head|
  {
    w := styled[..i] + head + SvgClose + tail + styled[i..];
    CloseAfter(styled[..i], head, tail + styled[i..]);
    assert w == styled[..i] + head + SvgClose + (tail + styled[i..]);
    p := IndexOf(w, SvgClose).value;
    NoEarlierClose(styled, head, w, i);
  }

  lemma HeadStartsLine(color: string)
    ensures |MessageHead(color)| > 0 && MessageHead(color)[0] == '\n'
  {
    assert MessageOpen[0] == '\n';
    var h := MessageOpen;
    FirstOfAppend(h, MessageFont);
    h := h + MessageFont;
    FirstOfAppend(h, FillOpen);
    h := h + FillOpen;
    FirstOfAppend(h, color);
    h := h + color;
    FirstOfAppend(h, FillClose);
    h := h + FillClose;
    FirstOfAppend(h, BoldOpen);
    h := h + BoldOpen;
    FirstOfAppend(h, Quote);
  }

  lemma FirstOfAppend(a: string, b: string)
    requires |a| > 0
    ensures |a + b| > 0 && (a + b)[0] == a[0]
  {
  }

  lemma CloseAfter(a: string, head: string, b: string)
    requires |head| > 0 && head[0] == '\n'
    ensures var w := a + head + SvgClose + b;
      OccursAt(w, SvgClose, |a| + |head|) && |w| > |a| && w[..|a|] == a && w[|a|] == '\n'
  {
    Sandwich(a + head, SvgClose, b);
  }

  /** A sequence that agrees with `w` up to `p`, holds `t` next and then the
      rest of `w`, is `t` spliced into `w` at `p`. */
  lemma Spliced(w: string, r: string, t: string, p: nat)
    requires p <= |w| && |r| == |w| + |t|
    requires r[..p] == w[..p] && r[p..p + |t|] == t && r[p + |t|..] == w[p..]
    ensures r == w[..p] + t + w[p..]
  {
    assert r == r[..p] + r[p..p + |t|] + r[p + |t|..];
  }

  /** Nothing in front of the first closing tag of `styled`, nor the newline
      that starts the message head, can begin a closing tag of `w`. */
  lemma NoEarlierClose(styled: string, head: string, w: string, i: nat)
    requires IndexOf(styled, SvgClose) == Some(i)
    requires |head| > 0 && head[0] == '\n'
    requires |w| > i && w[..i] == styled[..i] && w[i] == head[0]
    ensures forall j :: 0 <= j <= i ==> !OccursAt(w, SvgClose, j)
  {
    forall j | 0 <= j <= i
      ensures !OccursAt(w, SvgClose, j)
    {
      if j + |SvgClose| <= i {
        assert w[j..j + |SvgClose|] == w[..i][j..j + |SvgClose|];
        assert styled[j..j + |SvgClose|] == styled[..i][j..j + |SvgClose|];
        assert !OccursAt(styled, SvgClose, j);
      } else if j + |SvgClose| <= |w| {
        assert w[j..j + |SvgClose|][i - j] == w[i] != SvgClose[i - j];
      }
    }
  }

  /** The step-by-step expansion behind `DollarAmpersandMessage`. */
  lemma DollarAmpersandExpansion(svg: string, color: string)
    requires IndexOf(svg, SvgClose).Some? && NoDollar(color)
    ensures var i := IndexOf(svg, SvgClose).value;
      AddMessageText(svg, "$&", color)
        == svg[..i] + MessageHead(color) + SvgClose + MessageTail + svg[i..]
    ensures DisplayMessage("$&") == "$&" && !IsBlank("$&")
  {
    var message := "$&";
    assert !IsWhitespace(message[0]);
    assert DisplayMessage(message) == message;
    assert AddMessageText(svg, message, color) == ReplaceCloseWithMessage(svg, message, color);
    DollarAmpersandSplice(svg, color);
  }

  lemma DollarAmpersandSplice(svg: string, color: string)
    requires IndexOf(svg, SvgClose).Some? && NoDollar(color)
    ensures var i := IndexOf(svg, SvgClose).value;
      ReplaceCloseWithMessage(svg, "$&", color)
        == svg[..i] + MessageHead(color) + SvgClose + MessageTail + svg[i..]
  {
    var i := IndexOf(svg, SvgClose).value;
    var before, after := svg[..i], svg[i + |SvgClose|..];
    var head := MessageHead(color);
    ReplaceCloseExpands(svg, "$&", color);
    HeadNoDollar(color);
    ExpandMatchToken(head, MessageTail, SvgClose, before, after);
    AppendRegroup(before, head, SvgClose, MessageTail, svg[i..]);
  }

  /** The message replacement expands the element and keeps the rest. */
  lemma ReplaceCloseExpands(svg: string, display: string, color: string)
    requires IndexOf(svg, SvgClose).Some?
    ensures var i := IndexOf(svg, SvgClose).value;
      var element := MessageHead(color) + display + MessageTail;
      ReplaceCloseWithMessage(svg, display, color)
        == svg[..i] + ExpandReplacement(element, SvgClose, svg[..i], svg[i + |SvgClose|..]) + svg[i..]
  {
    MessageElementEnd(display, color);
    PiecesNoDollar();
    ReplaceInsertsExpansion(svg, SvgClose, MessageElement(display, color));
  }

  lemma HeadNoDollar(color: string)
    requires NoDollar(color)
    ensures NoDollar(MessageHead(color)) && NoDollar(MessageTail) && NoDollar(SvgClose)
  {
    PiecesNoDollar();
    var parts := MessageOpen + MessageFont + FillOpen;
    NoDollarConcat(MessageOpen, MessageFont);
    NoDollarConcat(MessageOpen + MessageFont, FillOpen);
    NoDollarConcat(parts, color);
    NoDollarConcat(parts + color, FillClose);
    NoDollarConcat(parts + color + FillClose, BoldOpen);
    NoDollarConcat(parts + color + FillClose + BoldOpen, Quote);
    NoDollarConcat(Quote, TextClose);
  }

  /** The message element ends in a space, never in a `$`. */
  lemma MessageElementEnd(display: string, color: string)
    ensures var e := MessageElement(display, color); |e| > 0 && e[|e| - 1] == ' '
  {
    var e := MessageElement(display, color);
    assert e == MessageHead(color) + display + Quote + TextClose;
    assert TextClose[|TextClose| - 1] == ' ';
  }

  // ---------------------------------------------------------------------
  // Helper lemmas
  // ---------------------------------------------------------------------

  lemma {:induction false} ConfigNoDollar(moodIndex: int)
    ensures NoDollar(ConfigFor(moodIndex).name)
    ensures NoDollar(ConfigFor(moodIndex).colors.primary)
    ensures NoDollar(ConfigFor(moodIndex).colors.secondary)
  {
    var k := if 0 <= moodIndex <= 11 then moodIndex else 0;
    assert ConfigFor(moodIndex) == MoodConfigs[k];
    NameNoDollar(k);
    PrimaryNoDollar(k);
    SecondaryNoDollar(k);
  }

  // The mood table is checked in two halves, indices 0..5 and 6..11: one
  // obligation over all twelve literal entries exceeds the solver's budget.
  lemma NameNoDollar(k: int)
    requires 0 <= k < |MoodConfigs|
    ensures NoDollar(MoodConfigs[k].name)
  {
    if k < 6 {
      NameNoDollarLow(k);
    } else {
      NameNoDollarHigh(k);
    }
  }

  lemma NameNoDollarLow(k: int)
    requires 0 <= k < 6
    ensures NoDollar(MoodConfigs[k].name)
  {
  }

  lemma NameNoDollarHigh(k: int)
    requires 6 <= k < |MoodConfigs|
    ensures NoDollar(MoodConfigs[k].name)
  {
  }

  lemma PrimaryNoDollar(k: int)
    requires 0 <= k < |MoodConfigs|
    ensures NoDollar(MoodConfigs[k].colors.primary)
  {
    if k < 6 {
      PrimaryNoDollarLow(k);
    } else {
      PrimaryNoDollarHigh(k);
    }
  }

  lemma PrimaryNoDollarLow(k: int)
    requires 0 <= k < 6
    ensures NoDollar(MoodConfigs[k].colors.primary)
  {
  }

  lemma PrimaryNoDollarHigh(k: int)
    requires 6 <= k < |MoodConfigs|
    ensures NoDollar(MoodConfigs[k].colors.primary)
  {
  }

  lemma SecondaryNoDollar(k: int)
    requires 0 <= k < |MoodConfigs|
    ensures NoDollar(MoodConfigs[k].colors.secondary)
  {
    if k < 6 {
      SecondaryNoDollarLow(k);
    } else {
      SecondaryNoDollarHigh(k);
    }
  }

  lemma SecondaryNoDollarLow(k: int)
    requires 0 <= k < 6
    ensures NoDollar(MoodConfigs[k].colors.secondary)
  {
  }

  lemma SecondaryNoDollarHigh(k: int)
    requires 6 <= k < |MoodConfigs|
    ensures NoDollar(MoodConfigs[k].colors.secondary)
  {
  }

  lemma {:induction false} LabelNoDollar(moodName: string, color: string)
    requires NoDollar(moodName) && NoDollar(color)
    ensures NoDollar(LabelElement(moodName, color) + SvgClose)
    ensures NoDollar(SvgClose)
  {
    PiecesNoDollar();
    var parts := LabelOpen + LabelFont + FillOpen;
    NoDollarConcat(LabelOpen, LabelFont);
    NoDollarConcat(LabelOpen + LabelFont, FillOpen);
    NoDollarConcat(parts, color);
    NoDollarConcat(parts + color, FillClose);
    NoDollarConcat(parts + color + FillClose, BoldOpen);
    NoDollarConcat(parts + color + FillClose + BoldOpen, moodName);
    NoDollarConcat(parts + color + FillClose + BoldOpen + moodName, TextClose);
    NoDollarConcat(LabelElement(moodName, color), SvgClose);
  }

  lemma {:induction false} PiecesNoDollar()
    ensures NoDollar(MessageOpen) && NoDollar(MessageFont)
    ensures NoDollar(LabelOpen) && NoDollar(LabelFont)
    ensures NoDollar(FillOpen) && NoDollar(FillClose) && NoDollar(BoldOpen)
    ensures NoDollar(Quote) && NoDollar(TextClose) && NoDollar(SvgClose)
  {
    MessagePiecesNoDollar();
    LabelPiecesNoDollar();
    StylePiecesNoDollar();
  }

  lemma MessagePiecesNoDollar()
    ensures NoDollar(MessageOpen) && NoDollar(MessageFont)
  {
  }

  lemma LabelPiecesNoDollar()
    ensures NoDollar(LabelOpen) && NoDollar(LabelFont)
  {
  }

  lemma StylePiecesNoDollar()
    ensures NoDollar(FillOpen) && NoDollar(FillClose) && NoDollar(BoldOpen)
    ensures NoDollar(Quote) && NoDollar(TextClose) && NoDollar(SvgClose)
  {
  }

  lemma ContainsAtIndex(s: string, t: string)
    requires IndexOf(s, t).Some?
    ensures Contains(s, t)
  {
    assert OccursAt(s, t, IndexOf(s, t).value);
  }

  lemma IndexOfFromContains(s: string, t: string)
    requires Contains(s, t)
    ensures IndexOf(s, t).Some?
  {
    var j :| OccursAt(s, t, j);
  }

  /** The message step keeps a closing tag in the document. */
  lemma MessageStepKeepsClose(styled: string, message: string, color: string)
    ensures var withMessage := AddMessageTextLiteral(styled, message, color);
      && (Contains(styled, SvgClose) ==> Contains(withMessage, SvgClose))
      && (!Contains(styled, SvgClose) ==> withMessage == styled)
  {
    var withMessage := AddMessageTextLiteral(styled, message, color);
    if Contains(styled, SvgClose) {
      IndexOfFromContains(styled, SvgClose);
      var i := IndexOf(styled, SvgClose).value;
      if !IsBlank(message) {
        var element := MessageElement(DisplayMessage(message), color);
        OccurrenceMoves(styled, withMessage, SvgClose, i, i + |element|);
      } else {
        assert OccursAt(withMessage, SvgClose, i);
      }
    } else if IndexOf(styled, SvgClose).Some? {
      ContainsAtIndex(styled, SvgClose);
    }
  }

  /** The as-written message step keeps a closing tag in the document,
      whatever the message expands to. */
  lemma AsWrittenStepKeepsClose(styled: string, message: string, color: string)
    ensures var withMessage := AddMessageText(styled, message, color);
      && (Contains(styled, SvgClose) ==> Contains(withMessage, SvgClose))
      && (!Contains(styled, SvgClose) ==> withMessage == styled)
  {
    var withMessage := AddMessageText(styled, message, color);
    if Contains(styled, SvgClose) {
      IndexOfFromContains(styled, SvgClose);
      var i := IndexOf(styled, SvgClose).value;
      if !IsBlank(message) {
        AddMessageTextKeepsDocument(styled, message, color);
        KeptTagStays(styled, withMessage, i);
      } else {
        assert OccursAt(withMessage, SvgClose, i);
      }
    } else if IndexOf(styled, SvgClose).Some? {
      ContainsAtIndex(styled, SvgClose);
    }
  }

  /** A tag at `i` survives an insertion at `i`. */
  lemma KeptTagStays(s: string, r: string, i: nat)
    requires i <= |s| && OccursAt(s, SvgClose, i) && KeepsAround(s, r, i)
    ensures Contains(r, SvgClose)
  {
    OccurrenceMoves(s, r, SvgClose, i, |r| - (|s| - i));
  }

  /** The label step leaves the label in any document with a closing tag. */
  lemma LabelStepInserts(svg: string, moodName: string, color: string)
    requires NoDollar(moodName) && NoDollar(color)
    ensures var r := AddMoodLabel(svg, moodName, color);
      && (Contains(svg, SvgClose) ==> Contains(r, LabelElement(moodName, color)))
      && (!Contains(svg, SvgClose) ==> r == svg)
  {
    var r := AddMoodLabel(svg, moodName, color);
    if Contains(svg, SvgClose) {
      IndexOfFromContains(svg, SvgClose);
      assert OccursAt(r, LabelElement(moodName, color), IndexOf(svg, SvgClose).value);
    } else if IndexOf(svg, SvgClose).Some? {
      ContainsAtIndex(svg, SvgClose);
    }
  }

  /** The as-written message step keeps the document around the element. */
  lemma AddMessageShape(svg: string, element: string)
    requires |element| > 0 && element[|element| - 1] == ' '
    ensures IndexOf(svg, SvgClose).Some? ==>
      var i := IndexOf(svg, SvgClose).value;
      var r := ReplaceFirst(svg, SvgClose, element + SvgClose);
      KeepsAround(svg, r, i)
  {
    if IndexOf(svg, SvgClose).Some? {
      var i := IndexOf(svg, SvgClose).value;
      PiecesNoDollar();
      ReplaceInsertsExpansion(svg, SvgClose, element);
      Sandwich(svg[..i], ExpandReplacement(element, SvgClose, svg[..i], svg[i + |SvgClose|..]), svg[i..]);
    }
  }
}
