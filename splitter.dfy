/**
 * The `split` chat command: from the command's arguments, the inventory and
 * the configured default split size, decide what is divided by how much,
 * and which message, if any, the player sees.
 *
 * The plugin registers two resolvers side by side: the one bound to the
 * `::split` command, which receives the argument tokens, and the one
 * registered for `!split` chat lines, which reads the raw `!split ...` text
 * and rewrites that chat message in place (the members named `Legacy…`).
 * Each is an imperative method over the same locals as the plugin; its
 * postconditions give the outcome for every shape of input.
 */
module Splitter {
  import opened Wrappers
  import opened JavaLang
  import opened Messages
  import opened ItemSearch

  const CoinId: int := 995
  const PlatinumTokenId: int := 13204
  const SplitCommand: string := "!split"

  /**
   * The inventory as the plugin queries it: whether it holds an item id,
   * and how many of that id it holds.
   */
  datatype ItemContainer = ItemContainer(contains: int -> bool, count: int -> Int32)

  /** What one invocation ends in. */
  datatype Outcome =
    | InventoryNotLoaded
    | NoCash
    | UnableToFind(phrase: string)
    | CurrencySplit(hasPlatinum: bool, share: Int32, value: Int32, size: Int32)
    | ItemSplit(name: string, share: Int32, value: Int32, size: Int32)
      /** The command returns without a message. */
    | Silent
      /** The division throws `ArithmeticException`; no message is produced. */
    | DivisionByZero

  /**
   * The amount the currency split divides: the platinum-token count when any
   * token is held, whether or not coins are held too, else the coin count.
   */
  function HeldValue(c: ItemContainer): (v: Int32)
    ensures c.contains(PlatinumTokenId) ==> v == c.count(PlatinumTokenId)
    ensures !c.contains(PlatinumTokenId) ==> v == c.count(CoinId)
  {
    if c.contains(PlatinumTokenId) then c.count(PlatinumTokenId) else c.count(CoinId)
  }

  // ---------------------------------------------------------------------------
  // computeSplit(String[] args)
  // ---------------------------------------------------------------------------

  /**
   * `computeSplit(String[])`. No arguments split the held currency by the
   * default size. One argument is a split size if it parses, else an item
   * to look up. With more, only the last argument may be a split size and
   * the rest, run together without spaces, names the item.
   */
  method ComputeSplit(args: seq<string>, container: Option<ItemContainer>, configSplitSize: Int32,
                      search: string -> seq<ItemPrice>)
    returns (outcome: Outcome)
    // No arguments: the held currency by the default size; the division
    // comes before the test for an empty purse.
    ensures |args| == 0 && container.None? ==> outcome == InventoryNotLoaded
    ensures |args| == 0 && container.Some? ==>
      var value := HeldValue(container.value);
      outcome ==
        if configSplitSize == 0 then DivisionByZero
        else if value == 0 then NoCash
        else CurrencySplit(container.value.contains(PlatinumTokenId), Int32Div(value, configSplitSize), value, configSplitSize)
    // One integer: it is the split size, nothing is looked up, and without an
    // inventory the amount stays -1; zero is not caught.
    ensures |args| == 1 && ParseInt(args[0]).Some? ==>
      var size := ParseInt(args[0]).value;
      var value := if container.Some? then HeldValue(container.value) else -1;
      outcome ==
        if size == 0 then DivisionByZero
        else CurrencySplit(container.Some? && container.value.contains(PlatinumTokenId), Int32Div(value, size), value, size)
    // One other word: an item, split by the default size.
    ensures |args| == 1 && ParseInt(args[0]).None? ==>
      outcome ==
        match ItemPriceLookup(search, args[0])
        case None => UnableToFind(args[0])
        case Some(item) =>
          if configSplitSize == 0 then DivisionByZero
          else ItemSplit(item.name, Int32Div(item.price, configSplitSize), item.price, configSplitSize)
    // Several words: only the last one may be the size; a size that is not
    // positive ends the command silently.
    ensures |args| >= 2 ==>
      var sizeArg := ParseInt(args[|args| - 1]);
      var size := if sizeArg.Some? then sizeArg.value else configSplitSize;
      var phrase := JoinWith("", if sizeArg.Some? then args[..|args| - 1] else args);
      outcome ==
        if size <= 0 then Silent
        else match ItemPriceLookup(search, phrase)
          case None => UnableToFind(phrase)
          case Some(item) => ItemSplit(item.name, Int32Div(item.price, size), item.price, size)
    // Consequences worth stating on their own.
    ensures outcome.DivisionByZero? ==> configSplitSize == 0 || (|args| == 1 && ParseInt(args[0]) == Some(0))
    ensures outcome.Silent? ==> |args| >= 2
    ensures outcome.CurrencySplit? ==> |args| <= 1 && outcome.size != 0 && outcome.share == Int32Div(outcome.value, outcome.size)
    ensures outcome.ItemSplit? ==> |args| >= 1 && outcome.size != 0 && outcome.share == Int32Div(outcome.value, outcome.size)
    ensures outcome.ItemSplit? && |args| >= 2 ==> outcome.size > 0
  {
    var item: Option<ItemPrice> := None;
    if container.None? && |args| == 0 {
      return InventoryNotLoaded;
    }

    var splitSize: Int32 := configSplitSize;
    var hasPlatinum := false;
    var valueToSplit: Int32 := -1;
    if container.Some? {
      hasPlatinum := container.value.contains(PlatinumTokenId);
      valueToSplit := if hasPlatinum then container.value.count(PlatinumTokenId) else container.value.count(CoinId);
    }

    if |args| == 0 {
      if splitSize == 0 {
        return DivisionByZero;
      }
      var splitValue := Int32Div(valueToSplit, splitSize);
      if valueToSplit == 0 {
        return NoCash;
      }
      return CurrencySplit(hasPlatinum, splitValue, valueToSplit, splitSize);
    } else if |args| == 1 {
      var parsed := ParseInt(args[0]);
      if parsed.Some? {
        splitSize := parsed.value;
      } else {
        item := ItemPriceLookup(search, args[0]);
        if item.None? {
          return UnableToFind(args[0]);
        }
        valueToSplit := item.value.price;
      }
    } else {
      var argElements: seq<string>;
      var parsed := ParseInt(args[|args| - 1]);
      if parsed.Some? {
        splitSize := parsed.value;
        argElements := args[..|args| - 1];
      } else {
        argElements := args;
      }
      if splitSize <= 0 {
        return Silent;
      }
      item := ItemPriceLookup(search, JoinWith("", argElements));
      if item.Some? {
        valueToSplit := item.value.price;
      } else {
        return UnableToFind(JoinWith("", argElements));
      }
    }

    if splitSize == 0 {
      return DivisionByZero;
    }
    var splitValue := Int32Div(valueToSplit, splitSize);
    if item.Some? {
      return ItemSplit(item.value.name, splitValue, valueToSplit, splitSize);
    } else {
      return CurrencySplit(hasPlatinum, splitValue, valueToSplit, splitSize);
    }
  }

  /**
   * The chat message the command queues for an outcome: the status text as a
   * game message, every other text as a console message, nothing when the
   * command returns silently or throws.
   */
  function Message(o: Outcome, formatNumber: int -> string): (m: Option<QueuedMessage>)
    ensures m.None? <==> o.Silent? || o.DivisionByZero?
    ensures m.Some? ==> (m.value.kind == GameMessage <==> o.InventoryNotLoaded? || o.NoCash?)
    ensures o.InventoryNotLoaded? || o.NoCash? ==> m.Some? && PlainText(m.value.body) == NoCashText
    ensures o.UnableToFind? ==> m.Some? && PlainText(m.value.body) == "Unable to find item '" + o.phrase + "'."
    ensures o.CurrencySplit? ==> (m.Some? &&
      PlainText(m.value.body) == "Splitting " + (if o.hasPlatinum then "Platinum token" else "Coin") + "s "
        + FiguresText(o.share, o.value, o.size, formatNumber))
    ensures o.ItemSplit? ==> (m.Some? &&
      PlainText(m.value.body) == "Splitting " + o.name + ": "
        + FiguresText(o.share, o.value, o.size, formatNumber))
    ensures o.InventoryNotLoaded? || o.NoCash? ==> m.Some? && HighlightedTexts(m.value.body, Normal) == []
    ensures o.UnableToFind? ==> m.Some? && HighlightedTexts(m.value.body, Normal) == ["Unable to find item '", "'."]
    ensures o.CurrencySplit? ==> (m.Some? &&
      HighlightedTexts(m.value.body, Normal) == [formatNumber(o.share), formatNumber(o.value), formatNumber(o.size)])
    ensures o.ItemSplit? ==> (m.Some? &&
      HighlightedTexts(m.value.body, Normal) == [o.name, formatNumber(o.share), formatNumber(o.value), formatNumber(o.size)])
  {
    match o
    case InventoryNotLoaded => Some(NoCashMessage())
    case NoCash => Some(NoCashMessage())
    case UnableToFind(phrase) => Some(QueuedMessage(Console, PrintUnableToFindItem(phrase)))
    case CurrencySplit(hasPlatinum, share, value, size) =>
      Some(QueuedMessage(Console, PrintSplit(hasPlatinum, share, value, size, formatNumber)))
    case ItemSplit(name, share, value, size) =>
      Some(QueuedMessage(Console, PrintSplitItem(name, share, value, size, formatNumber)))
    case Silent => None
    case DivisionByZero => None
  }

  // ---------------------------------------------------------------------------
  // computeSplit(ChatMessage, String message)
  // ---------------------------------------------------------------------------

  /**
   * The end of the `!split` chat-line resolver once the amount and the size are known:
   * with neither platinum tokens nor coins held it reports no cash, even for
   * an item; otherwise it reports the item or the currency split.
   */
  function LegacySettle(c: ItemContainer, item: Option<ItemPrice>, value: Int32, size: Int32): (o: Outcome)
    requires size != 0
    ensures !c.contains(PlatinumTokenId) && !c.contains(CoinId) <==> o == NoCash
    ensures o.ItemSplit? <==> item.Some? && o != NoCash
    ensures o.CurrencySplit? || o.ItemSplit? ==> o.value == value && o.size == size && o.share == Int32Div(value, size)
    ensures item.None? && o != NoCash ==> o.CurrencySplit? && o.hasPlatinum == c.contains(PlatinumTokenId)
    ensures o.ItemSplit? ==> o.name == item.value.name
  {
    var share := Int32Div(value, size);
    if !c.contains(PlatinumTokenId) && !c.contains(CoinId) then NoCash
    else if item.Some? then ItemSplit(item.value.name, share, value, size)
    else CurrencySplit(c.contains(PlatinumTokenId), share, value, size)
  }

  /**
   * The held-currency split of the `!split` chat-line resolver divides the count of the
   * very currency its message names: platinum tokens under the "Platinum
   * Token" label, coins under the "Coin" label.
   */
  lemma HeldCurrencyNamed(c: ItemContainer, size: Int32)
    requires size != 0
    ensures var o := LegacySettle(c, None, HeldValue(c), size);
      o.CurrencySplit? ==> o.value == c.count(if o.hasPlatinum then PlatinumTokenId else CoinId)
  {
  }

  /**
   * `computeSplit(ChatMessage, String)`. The text after `!split ` is split
   * at spaces. A single word is a split size if the whole text parses, else
   * an item to look up. Several words need an integer last word, which is
   * the size; an item named by the other words replaces the held amount
   * when found, and the held currency is split when not.
   */
  method ComputeSplitLegacy(message: string, container: Option<ItemContainer>, configSplitSize: Int32,
                            search: string -> seq<ItemPrice>)
    returns (outcome: Outcome)
    ensures container.None? ==> outcome == InventoryNotLoaded
    // Nothing after the command: the held currency by the default size.
    ensures container.Some? && |message| <= |SplitCommand| ==>
      outcome ==
        if configSplitSize == 0 then DivisionByZero
        else LegacySettle(container.value, None, HeldValue(container.value), configSplitSize)
    // One word that parses: the split size, which must be positive.
    ensures (container.Some? && |message| > |SplitCommand| &&
             |JavaSplit(message[|SplitCommand| + 1..])| == 1 && ParseInt(message[|SplitCommand| + 1..]).Some?) ==>
      var size := ParseInt(message[|SplitCommand| + 1..]).value;
      outcome == if size <= 0 then Silent else LegacySettle(container.value, None, HeldValue(container.value), size)
    // One word that does not parse: an item, silently dropped when not found.
    ensures (container.Some? && |message| > |SplitCommand| &&
             |JavaSplit(message[|SplitCommand| + 1..])| == 1 && ParseInt(message[|SplitCommand| + 1..]).None?) ==>
      outcome ==
        match ItemPriceLookup(search, message[|SplitCommand| + 1..])
        case None => Silent
        case Some(item) =>
          if configSplitSize <= 0 then Silent
          else LegacySettle(container.value, Some(item), item.price, configSplitSize)
    // Several words: the last must be a positive size; an item that is not
    // found leaves the held amount in place.
    ensures container.Some? && |message| > |SplitCommand| && |JavaSplit(message[|SplitCommand| + 1..])| >= 2 ==>
      var parts := JavaSplit(message[|SplitCommand| + 1..]);
      var sizeArg := ParseInt(parts[|parts| - 1]);
      var item := ItemPriceSearch(search, JoinWith("", parts[..|parts| - 1]));
      outcome ==
        if sizeArg.None? || sizeArg.value <= 0 then Silent
        else LegacySettle(container.value, item, if item.Some? then item.value.price else HeldValue(container.value), sizeArg.value)
    // Only spaces after the command.
    ensures container.Some? && |message| > |SplitCommand| && |JavaSplit(message[|SplitCommand| + 1..])| == 0 ==>
      outcome == Silent
    // Consequences worth stating on their own.
    ensures !outcome.UnableToFind?
    ensures outcome.DivisionByZero? ==> configSplitSize == 0 && |message| <= |SplitCommand|
    ensures outcome.CurrencySplit? || outcome.ItemSplit? ==>
      container.Some? && (container.value.contains(PlatinumTokenId) || container.value.contains(CoinId)) &&
      outcome.size != 0 && (|message| > |SplitCommand| ==> outcome.size > 0)
  {
    var item: Option<ItemPrice> := None;
    if container.None? {
      return InventoryNotLoaded;
    }
    var inventory := container.value;

    var splitSize: Int32 := configSplitSize;
    var hasPlatinum := inventory.contains(PlatinumTokenId);
    var valueToSplit: Int32 := if hasPlatinum then inventory.count(PlatinumTokenId) else inventory.count(CoinId);

    if |message| > |SplitCommand| {
      var msgSplitSize := message[|SplitCommand| + 1..];
      var msgSplitSizeParts := JavaSplit(msgSplitSize);
      if |msgSplitSizeParts| == 1 {
        var parsed := ParseInt(msgSplitSize);
        if parsed.Some? {
          splitSize := parsed.value;
        } else {
          item := ItemPriceLookup(search, msgSplitSize);
          if item.None? {
            return Silent;
          }
          valueToSplit := item.value.price;
        }
        if splitSize <= 0 {
          return Silent;
        }
      } else if |msgSplitSizeParts| > 1 {
        var parsed := ParseInt(msgSplitSizeParts[|msgSplitSizeParts| - 1]);
        if parsed.None? {
          return Silent;
        }
        splitSize := parsed.value;
        if splitSize <= 0 {
          return Silent;
        }
        item := ItemPriceLookup(search, msgSplitSize);
        if item.Some? {
          valueToSplit := item.value.price;
        }
      } else {
        return Silent;
      }
    }

    if splitSize == 0 {
      return DivisionByZero;
    }
    var splitValue := Int32Div(valueToSplit, splitSize);

    if !hasPlatinum && !inventory.contains(CoinId) {
      return NoCash;
    }
    if item.Some? {
      return ItemSplit(item.value.name, splitValue, valueToSplit, splitSize);
    } else {
      return CurrencySplit(hasPlatinum, splitValue, valueToSplit, splitSize);
    }
  }

  /**
   * The text the `!split` chat-line resolver writes over the chat line: the status text
   * highlighted, "Platinum Token" as the platinum label, and nothing when it
   * returns silently or throws.
   */
  function LegacyMessage(o: Outcome, formatNumber: int -> string): (m: Option<seq<Segment>>)
    ensures m.None? <==> o.Silent? || o.DivisionByZero? || o.UnableToFind?
    ensures o.InventoryNotLoaded? || o.NoCash? ==> m.Some? && PlainText(m.value) == NoCashText
    ensures o.CurrencySplit? ==> (m.Some? &&
      PlainText(m.value) == "Splitting " + (if o.hasPlatinum then "Platinum Token" else "Coin") + "s "
        + FiguresText(o.share, o.value, o.size, formatNumber))
    ensures o.ItemSplit? ==> (m.Some? &&
      PlainText(m.value) == "Splitting " + o.name + ": "
        + FiguresText(o.share, o.value, o.size, formatNumber))
    ensures o.InventoryNotLoaded? || o.NoCash? ==> m.Some? && HighlightedTexts(m.value, Normal) == [NoCashText]
    ensures o.CurrencySplit? ==> (m.Some? &&
      HighlightedTexts(m.value, Normal) == [formatNumber(o.share), formatNumber(o.value), formatNumber(o.size)])
    ensures o.ItemSplit? ==> (m.Some? &&
      HighlightedTexts(m.value, Normal) == [o.name, formatNumber(o.share), formatNumber(o.value), formatNumber(o.size)])
  {
    match o
    case InventoryNotLoaded => Some(LegacyNoCashMessage())
    case NoCash => Some(LegacyNoCashMessage())
    case CurrencySplit(hasPlatinum, share, value, size) =>
      Some(LegacyPrintSplit(hasPlatinum, share, value, size, formatNumber))
    case ItemSplit(name, share, value, size) =>
      Some(PrintSplitItem(name, share, value, size, formatNumber))
    case UnableToFind(_) => None
    case Silent => None
    case DivisionByZero => None
  }
}
