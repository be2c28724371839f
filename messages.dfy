/**
 * The chat texts the split command produces. A message is a list of text
 * segments and colour markers, as the plugin assembles them with
 * `ChatMessageBuilder`; how a marker is rendered, and how
 * `QuantityFormatter.formatNumber` groups digits, is library code, so the
 * number formatter is a parameter.
 */
module Messages {

  datatype Colour = Highlight | Normal

  datatype Segment = Text(text: string) | Tag(colour: Colour)

  /** GAMEMESSAGE for the plain status texts, CONSOLE for formatted results. */
  datatype ChatMessageType = GameMessage | Console

  datatype QueuedMessage = QueuedMessage(kind: ChatMessageType, body: seq<Segment>)

  // ---------------------------------------------------------------------------
  // Reading a message back
  // ---------------------------------------------------------------------------

  /** What a reader sees once the colour markers are dropped. */
  function PlainText(m: seq<Segment>): string
    decreases |m|
  {
    if |m| == 0 then ""
    else (if m[0].Text? then m[0].text else "") + PlainText(m[1..])
  }

  /** The colour in force after `m`, when `c` was in force before it. */
  function EndColour(m: seq<Segment>, c: Colour): Colour
    decreases |m|
  {
    if |m| == 0 then c
    else EndColour(m[1..], if m[0].Tag? then m[0].colour else c)
  }

  /** The texts of `m` shown in the highlight colour, in order. */
  function HighlightedTexts(m: seq<Segment>, c: Colour): seq<string>
    decreases |m|
  {
    if |m| == 0 then []
    else if m[0].Tag? then HighlightedTexts(m[1..], m[0].colour)
    else (if c == Highlight then [m[0].text] else []) + HighlightedTexts(m[1..], c)
  }

  lemma {:induction false} ReadAppend(a: seq<Segment>, b: seq<Segment>, c: Colour)
    ensures PlainText(a + b) == PlainText(a) + PlainText(b)
    ensures EndColour(a + b, c) == EndColour(b, EndColour(a, c))
    ensures HighlightedTexts(a + b, c) == HighlightedTexts(a, c) + HighlightedTexts(b, EndColour(a, c))
    decreases |a|
  {
    if |a| > 0 {
      assert (a + b)[0] == a[0] && (a + b)[1..] == a[1..] + b;
      var c' := if a[0].Tag? then a[0].colour else c;
      ReadAppend(a[1..], b, c');
    } else {
      assert a + b == b;
    }
  }

  // ---------------------------------------------------------------------------
  // Building blocks
  // ---------------------------------------------------------------------------

  /** What each reading makes of a one-segment message. */
  lemma ReadSingle(x: Segment, c: Colour)
    ensures PlainText([x]) == (if x.Text? then x.text else "")
    ensures EndColour([x], c) == (if x.Tag? then x.colour else c)
    ensures HighlightedTexts([x], c) == (if x.Text? && c == Highlight then [x.text] else [])
  {
    assert [x][0] == x && [x][1..] == [];
  }

  /** `append(HIGHLIGHT).append(t).append(NORMAL)`. */
  function Emphasised(t: string): (m: seq<Segment>)
    ensures PlainText(m) == t
    ensures forall c :: EndColour(m, c) == Normal && HighlightedTexts(m, c) == [t]
  {
    EmphasisedReads(t);
    [Tag(Highlight)] + [Text(t)] + [Tag(Normal)]
  }

  lemma EmphasisedReads(t: string)
    ensures var m := [Tag(Highlight)] + [Text(t)] + [Tag(Normal)];
      PlainText(m) == t &&
      forall c :: EndColour(m, c) == Normal && HighlightedTexts(m, c) == [t]
  {
    forall c ensures var m := [Tag(Highlight)] + [Text(t)] + [Tag(Normal)];
      PlainText(m) == t && EndColour(m, c) == Normal && HighlightedTexts(m, c) == [t]
    {
      ReadSingle(Tag(Highlight), c);
      ReadSingle(Text(t), Highlight);
      ReadSingle(Tag(Normal), Highlight);
      ReadAppend([Tag(Highlight)], [Text(t)], c);
      ReadAppend([Tag(Highlight)] + [Text(t)], [Tag(Normal)], c);
    }
    ReadSingle(Tag(Highlight), Normal);
    ReadSingle(Text(t), Highlight);
    ReadSingle(Tag(Normal), Highlight);
    ReadAppend([Tag(Highlight)], [Text(t)], Normal);
    ReadAppend([Tag(Highlight)] + [Text(t)], [Tag(Normal)], Normal);
  }

  /** Plain text in the colour already in force. */
  function Plain(t: string): (m: seq<Segment>)
    ensures PlainText(m) == t
    ensures forall c :: EndColour(m, c) == c && HighlightedTexts(m, c) == (if c == Highlight then [t] else [])
  {
    PlainReads(t);
    [Text(t)]
  }

  lemma PlainReads(t: string)
    ensures PlainText([Text(t)]) == t
    ensures forall c :: EndColour([Text(t)], c) == c && HighlightedTexts([Text(t)], c) == (if c == Highlight then [t] else [])
  {
    forall c ensures EndColour([Text(t)], c) == c && HighlightedTexts([Text(t)], c) == (if c == Highlight then [t] else []) {
      ReadSingle(Text(t), c);
    }
    ReadSingle(Text(t), Normal);
  }

  /** The text `<share>, ( <value> / <size> )` that ends both split messages. */
  function FiguresText(share: int, value: int, size: int, formatNumber: int -> string): string
  {
    formatNumber(share) + ", ( " + formatNumber(value) + " / " + formatNumber(size) + " )"
  }

  /** The common tail `<share>, ( <value> / <size> )` of both split messages. */
  function Figures(share: int, value: int, size: int, formatNumber: int -> string): (m: seq<Segment>)
    ensures PlainText(m) == FiguresText(share, value, size, formatNumber)
    ensures EndColour(m, Normal) == Normal
    ensures HighlightedTexts(m, Normal) == [formatNumber(share), formatNumber(value), formatNumber(size)]
  {
    var m1 := Emphasised(formatNumber(share)) + Plain(", ( ");
    ReadAppend(Emphasised(formatNumber(share)), Plain(", ( "), Normal);
    var m2 := m1 + Emphasised(formatNumber(value));
    ReadAppend(m1, Emphasised(formatNumber(value)), Normal);
    var m3 := m2 + Plain(" / ");
    ReadAppend(m2, Plain(" / "), Normal);
    var m4 := m3 + Emphasised(formatNumber(size));
    ReadAppend(m3, Emphasised(formatNumber(size)), Normal);
    ReadAppend(m4, Plain(" )"), Normal);
    m4 + Plain(" )")
  }

  // ---------------------------------------------------------------------------
  // The plugin's message texts
  // ---------------------------------------------------------------------------

  const NoCashText: string := "No Coin(s) or Platinum token(s) in the inventory."

  /** The currency word of `printSplit`. */
  function CurrencyLabel(hasPlatinum: bool): string
  {
    if hasPlatinum then "Platinum token" else "Coin"
  }

  /** The currency word of the `!split` chat-line, message-rewriting `printSplit`. */
  function LegacyCurrencyLabel(hasPlatinum: bool): string
  {
    if hasPlatinum then "Platinum Token" else "Coin"
  }

  function SplitWithLabel(noun: string, share: int, value: int, size: int, formatNumber: int -> string): (m: seq<Segment>)
    ensures PlainText(m) == "Splitting " + noun + "s " + FiguresText(share, value, size, formatNumber)
    ensures HighlightedTexts(m, Normal) == [formatNumber(share), formatNumber(value), formatNumber(size)]
  {
    var head := Plain("Splitting " + noun + "s ");
    ReadAppend(head, Figures(share, value, size, formatNumber), Normal);
    head + Figures(share, value, size, formatNumber)
  }

  /**
   * `printSplit`: the currency share, the amount and the split size, each
   * number highlighted.
   */
  function PrintSplit(hasPlatinum: bool, share: int, value: int, size: int, formatNumber: int -> string): (m: seq<Segment>)
    ensures PlainText(m) == "Splitting " + (if hasPlatinum then "Platinum token" else "Coin") + "s "
      + FiguresText(share, value, size, formatNumber)
    ensures HighlightedTexts(m, Normal) == [formatNumber(share), formatNumber(value), formatNumber(size)]
  {
    SplitWithLabel(CurrencyLabel(hasPlatinum), share, value, size, formatNumber)
  }

  /** The `!split` chat-line `printSplit`, which spells the platinum label "Platinum Token". */
  function LegacyPrintSplit(hasPlatinum: bool, share: int, value: int, size: int, formatNumber: int -> string): (m: seq<Segment>)
    ensures PlainText(m) == "Splitting " + (if hasPlatinum then "Platinum Token" else "Coin") + "s "
      + FiguresText(share, value, size, formatNumber)
    ensures HighlightedTexts(m, Normal) == [formatNumber(share), formatNumber(value), formatNumber(size)]
  {
    SplitWithLabel(LegacyCurrencyLabel(hasPlatinum), share, value, size, formatNumber)
  }

  /**
   * `printSplitItem` (both resolvers): the item name and the three numbers
   * highlighted.
   */
  function PrintSplitItem(itemName: string, share: int, value: int, size: int, formatNumber: int -> string): (m: seq<Segment>)
    ensures PlainText(m) == "Splitting " + itemName + ": " + FiguresText(share, value, size, formatNumber)
    ensures HighlightedTexts(m, Normal) == [itemName, formatNumber(share), formatNumber(value), formatNumber(size)]
  {
    var m1 := Plain("Splitting ") + Emphasised(itemName);
    ReadAppend(Plain("Splitting "), Emphasised(itemName), Normal);
    var head := m1 + Plain(": ");
    ReadAppend(m1, Plain(": "), Normal);
    var tail := Figures(share, value, size, formatNumber);
    ReadAppend(head, tail, Normal);
    head + tail
  }

  /**
   * `printUnableToFindItem`: the searched phrase in the normal colour between
   * two highlighted pieces, and the message ends in the highlight colour.
   */
  function PrintUnableToFindItem(searchString: string): (m: seq<Segment>)
    ensures PlainText(m) == "Unable to find item '" + searchString + "'."
    ensures HighlightedTexts(m, Normal) == ["Unable to find item '", "'."]
    ensures EndColour(m, Normal) == Highlight
  {
    var m1 := Emphasised("Unable to find item '") + Plain(searchString);
    ReadAppend(Emphasised("Unable to find item '"), Plain(searchString), Normal);
    var tail := [Tag(Highlight)] + Plain("'.");
    ReadSingle(Tag(Highlight), Normal);
    ReadAppend([Tag(Highlight)], Plain("'."), Normal);
    ReadAppend(m1, tail, Normal);
    m1 + tail
  }

  /** `noCashMessage()` and `inventoryHasNotLoaded()` queue the same plain text. */
  function NoCashMessage(): (m: QueuedMessage)
    ensures m.kind == GameMessage && PlainText(m.body) == NoCashText
    ensures forall c :: HighlightedTexts(m.body, c) == (if c == Highlight then [NoCashText] else [])
  {
    QueuedMessage(GameMessage, Plain(NoCashText))
  }

  /**
   * The `!split` chat-line `noCashMessage(MessageNode)` and `inventoryHasNotLoaded(MessageNode)`
   * write the same text, highlighted.
   */
  function LegacyNoCashMessage(): (m: seq<Segment>)
    ensures PlainText(m) == NoCashText
    ensures forall c :: HighlightedTexts(m, c) == [NoCashText]
  {
    var m := [Tag(Highlight)] + Plain(NoCashText);
    ReadSingle(Tag(Highlight), Normal);
    HighlightedFromStart(NoCashText);
    ReadAppend([Tag(Highlight)], Plain(NoCashText), Normal);
    m
  }

  /** Text after a highlight marker is highlighted whatever colour came before. */
  lemma HighlightedFromStart(t: string)
    ensures forall c :: HighlightedTexts([Tag(Highlight)] + Plain(t), c) == [t]
  {
    forall c ensures HighlightedTexts([Tag(Highlight)] + Plain(t), c) == [t] {
      ReadSingle(Tag(Highlight), c);
      ReadAppend([Tag(Highlight)], Plain(t), c);
    }
  }
}
