# Splitter: the `split` chat command, modelled in Dafny

The Splitter plugin answers a chat command such as `::split`, `::split 4`
or `::split dragon bones 3`, and responds to a chat line such as
`!split abyssal whip 5`. It decides whether an argument is a split size, which item name (if any) is looked up
in the price catalogue, what amount is divided (the held coins or platinum
tokens, or an item's price) and which message the player sees: the
currency split, the item split, "Unable to find item '…'.", the no-cash
text, nothing at all, or an exception from a division by zero.

The model has five modules:

- `Wrappers` — `Option`, standing for a Java reference that may be `null`.
- `JavaLang` — the Java behaviour the command depends on: 32-bit `int`,
  `Integer.parseInt` (with `Integer.toString` as its inverse),
  truncating `/` with its `MIN_VALUE / -1` wrap-around,
  `String.split(" ")` (trailing empty strings dropped, no match gives the
  whole string), `String.join` and `equalsIgnoreCase`.
- `Messages` — the message texts as lists of text segments and colour markers,
  read back through `PlainText` (what the player reads) and
  `HighlightedTexts` (what is shown in the highlight colour).
- `ItemSearch` — `itemPriceLookup`, `itemPrice` and the `retrieveFromList`
  loop, proved against `BestMatch`. `BestMatch` picks the first exact match
  ignoring case, or else the first of the shortest names.
- `Splitter` — both `computeSplit` resolvers as imperative methods. The plugin
  registers both: `computeSplit(String[])` handles the `::split` command, and
  `computeSplit(ChatMessage, String)` is registered for `!split` chat lines,
  whose text it rewrites in place. The members named `Legacy…` model the
  `!split` chat-line resolver and its texts. The methods use the plugin's
  locals (`splitSize`, `valueToSplit`, `item`, `hasPlatinum`) and its early
  returns, and return an `Outcome`. `Message` and `LegacyMessage` turn an
  outcome into what each resolver shows.

The inventory is abstracted to the two queries the plugin makes of it,
`contains(id)` and `count(id)`, for coins (995) and platinum tokens (13204).
The item catalogue is the parameter `search`, which gives a list of
(name, price) records for a phrase. The price in a record is the one the
configuration selects (wiki or Grand Exchange). The default split size is a
parameter; the configuration's default is 2.

Behaviour of the code worth knowing:
- with several arguments, only the LAST one is tried as the split size;
- the remaining arguments are joined with the empty string, so
  `dragon bones 3` searches for `dragonbones`;
- a single argument `0` reaches the division and throws (`DivisionByZero`);
- in the multi-argument case, a split size that is not positive ends the
  command without any message;
- with no inventory and a single integer argument the amount is -1, and it is
  divided with Java's truncating division.

## Model

| member | source | states |
|---|---|---|
| `JavaLang.Int32Div` | src/main/java/com/splitter/SplitterPlugin.java:135 | Java `int` division: the remainder `a - q*b` is smaller than `b` in magnitude and never has the opposite sign of `a` (truncation toward zero). `MIN_VALUE / -1` gives `MIN_VALUE`. For a non-negative `a` and a positive `b` it agrees with mathematical division. |
| `JavaLang.TruncatedQuotient` | src/main/java/com/splitter/SplitterPlugin.java:135 | For every divisor other than 0, the quotient of the magnitudes with the sign of the exact quotient leaves a remainder smaller than the divisor and with the sign of the dividend. |
| `JavaLang.ParseInt` | src/main/java/com/splitter/SplitterPlugin.java:102 | `Integer.parseInt`: it succeeds only on a non-empty, space-free string made of an optional sign and decimal digits, with at least one digit (the last character is a digit), with a value in `int` range. It fails on everything else (`None`), including the empty string and a lone sign. |
| `JavaLang.ParseIntToString` | src/main/java/com/splitter/SplitterPlugin.java:116 | Round trip: `parseInt(toString(n))` is `n` for every `n` in `int` range. The decimal form of every other integer is rejected. |
| `JavaLang.ParseIntPlusSign` | src/main/java/com/splitter/SplitterPlugin.java:263 | A leading `+` is accepted and does not change the value; values above `Integer.MAX_VALUE` are rejected. |
| `JavaLang.ParseIntLeadingZero` | src/main/java/com/splitter/SplitterPlugin.java:102 | Leading zeros are accepted, with or without a sign: `"007"` and `"+05"` read as `"7"` and `"+5"` do. A zero alone, even after a sign (`"-0"`, `"+0"`), reads as 0. |
| `JavaLang.NegativeZero` | src/main/java/com/splitter/SplitterPlugin.java:102 | `"-0"` parses to 0, so a single `-0` argument is the split size 0. |
| `JavaLang.LoneSignRejected` | src/main/java/com/splitter/SplitterPlugin.java:102 | `"-"`, `"+"` and the empty string are rejected. |
| `JavaLang.Fields` | src/main/java/com/splitter/SplitterPlugin.java:319 | The fields between single spaces: at least one field, none contains a space, and a space-free string is its own only field. |
| `JavaLang.StripTrailingEmpty` | src/main/java/com/splitter/SplitterPlugin.java:260 | The result is a prefix of the input, does not end in an empty string, and only empty strings were removed. |
| `JavaLang.JavaSplit` | src/main/java/com/splitter/SplitterPlugin.java:319 | `split(" ")`: no part contains a space. A string without a space splits into itself, even the empty one. Otherwise the last part is not empty, so a string of spaces splits into nothing. |
| `JavaLang.JoinFields` | src/main/java/com/splitter/SplitterPlugin.java:319 | Joining the space-separated fields with a space gives back the original string. |
| `JavaLang.JavaSplitJoin` | src/main/java/com/splitter/SplitterPlugin.java:260 | Inverse of `split(" ")`: joining its parts with a space gives the input with its trailing spaces removed. |
| `JavaLang.JoinWith` | src/main/java/com/splitter/SplitterPlugin.java:126-130 | `String.join`: the result starts with the first part. Joining space-free parts with a space-free separator gives a space-free string, so the multi-word search phrase has no spaces. `JoinFields` and `JavaSplitJoin` make it the inverse of splitting. |
| `JavaLang.EqualsIgnoreCase` | src/main/java/com/splitter/SplitterPlugin.java:375 | Two names are equal ignoring case exactly when they are equal once both are upper-cased. |
| `ItemSearch.FirstExactMatch` | src/main/java/com/splitter/SplitterPlugin.java:375-377 | The position found holds a name equal to the input ignoring case, and no earlier name does. Without a result, no name matches. |
| `ItemSearch.Shortest` | src/main/java/com/splitter/SplitterPlugin.java:379-381 | The position found holds a name of minimal length, and every earlier name is strictly longer (the first of the shortest, because only a strictly shorter name replaces `shortest`). |
| `ItemSearch.BestMatch` | src/main/java/com/splitter/SplitterPlugin.java:371-386 | The chosen candidate comes from the list. The result is empty exactly when the list is empty. |
| `ItemSearch.RetrieveFromList` | src/main/java/com/splitter/SplitterPlugin.java:371-386 | The loop with its early return yields exactly `BestMatch`: the first exact match ignoring case, otherwise the first shortest name. |
| `ItemSearch.ExactMatchWins` | src/main/java/com/splitter/SplitterPlugin.java:373-377 | The first candidate equal to the input ignoring case is chosen, whatever shorter names exist. |
| `ItemSearch.ShortestWins` | src/main/java/com/splitter/SplitterPlugin.java:379-385 | Without any exact match, the first name of the smallest length is chosen, wherever it stands. |
| `ItemSearch.BonesExactMatch` | src/main/java/com/splitter/SplitterPlugin.java:375-376 | Of "Bone", "Dragon bones" and "Bones", the search for "bones" picks "Bones", although the shorter "Bone" comes first. |
| `ItemSearch.BoneShortestMatch` | src/main/java/com/splitter/SplitterPlugin.java:379-385 | With no exact match for "bone", "Dragon bones" is chosen over the longer "Bones of contention". |
| `ItemSearch.ItemPriceSearch` | src/main/java/com/splitter/SplitterPlugin.java:349-357 | `itemPrice` gives nothing exactly when the search result is empty. Otherwise it gives the first result whose name equals the searched phrase ignoring case, or, without one, the first of the shortest names among the results. |
| `ItemSearch.SearchedPhraseWins` | src/main/java/com/splitter/SplitterPlugin.java:354 | The candidate is matched against the phrase that was searched: the first result equal to that phrase ignoring case is the one returned. |
| `ItemSearch.ItemPriceLookup` | src/main/java/com/splitter/SplitterPlugin.java:318-340 | A phrase that parses as an `int` is never searched. A space-free phrase that does not parse is searched as it is. With two or more words and an integer last word, the other words are searched, joined with "". Every other phrase is searched as it is. |
| `Messages.Emphasised` | src/main/java/com/splitter/SplitterPlugin.java:168-170 | The highlight, text, normal sequence reads as the text, shows the text highlighted, and ends in the normal colour. |
| `Messages.Plain` | src/main/java/com/splitter/SplitterPlugin.java:171 | A plain append reads as its text and keeps the colour in force. |
| `Messages.Figures` | src/main/java/com/splitter/SplitterPlugin.java:169-179 | The common tail reads "<share>, ( <value> / <size> )". The three formatted numbers, and only they, are highlighted. |
| `Messages.SplitWithLabel` | src/main/java/com/splitter/SplitterPlugin.java:166-180 | The currency split text reads "Splitting <noun>s <share>, ( <value> / <size> )" with the three numbers highlighted. |
| `Messages.PrintSplit` | src/main/java/com/splitter/SplitterPlugin.java:160-180 | `printSplit` reads "Splitting Platinum tokens …" when platinum is held and "Splitting Coins …" otherwise. The share, value and size are highlighted. |
| `Messages.LegacyPrintSplit` | src/main/java/com/splitter/SplitterPlugin.java:408-427 | The `!split` chat-line `printSplit` spells the platinum label "Platinum Token". Otherwise it reads and highlights like `printSplit`. |
| `Messages.PrintSplitItem` | src/main/java/com/splitter/SplitterPlugin.java:189-207 | `printSplitItem` reads "Splitting <name>: <share>, ( <value> / <size> )". The name and the three numbers are highlighted. |
| `Messages.PrintUnableToFindItem` | src/main/java/com/splitter/SplitterPlugin.java:217-225 | Reads "Unable to find item '<phrase>'." The phrase is in the normal colour between the two highlighted pieces, and the message ends highlighted. |
| `Messages.NoCashMessage` | src/main/java/com/splitter/SplitterPlugin.java:144-158 | `noCashMessage` and `inventoryHasNotLoaded` queue the same plain game message "No Coin(s) or Platinum token(s) in the inventory." |
| `Messages.LegacyNoCashMessage` | src/main/java/com/splitter/SplitterPlugin.java:388-406 | The `!split` chat-line variants write the same text, all of it highlighted. |
| `Splitter.ComputeSplit` | src/main/java/com/splitter/SplitterPlugin.java:70-142 | For every argument count, the outcome is stated. No arguments: not loaded without an inventory; the division by the default size comes before the empty-purse check; otherwise the held-currency split. One integer: it is the size, with no lookup, and the amount is the held value or -1; `0` throws. One other word: looked up, "Unable to find" when missing, otherwise the item split by the default size. Several words: only the last one may be the size, the rest are joined with "", and a size that is not positive is silent. A division by zero needs a default size of 0 or a single `0` argument. |
| `Splitter.HeldValue` | src/main/java/com/splitter/SplitterPlugin.java:84-88 | The amount for a currency split is the platinum-token count whenever any token is held, even when coins are held too, and otherwise the coin count. |
| `Splitter.Message` | src/main/java/com/splitter/SplitterPlugin.java:137-141 | No message only for the silent and throwing outcomes. For the not-loaded and no-cash outcomes, a game message with the plain no-cash text and nothing highlighted. Otherwise a console message whose text and highlighted pieces are those of the matching `print…` text. |
| `Splitter.LegacySettle` | src/main/java/com/splitter/SplitterPlugin.java:297-308 | With neither platinum nor coins held the outcome is no cash, even for an item split. Otherwise a found item gives an item split carrying the item's name, and no item gives a currency split whose label follows whether platinum is held. Both carry the truncated share. |
| `Splitter.HeldCurrencyNamed` | src/main/java/com/splitter/SplitterPlugin.java:255-256 | The `!split` chat-line resolver's currency split divides the count of the currency its label names: platinum tokens under "Platinum Token", coins under "Coin". |
| `Splitter.ComputeSplitLegacy` | src/main/java/com/splitter/SplitterPlugin.java:242-309 | Without an inventory: not loaded. Nothing after `!split`: the default size, which throws when it is 0. One word: it is the size if the whole text parses, and it must be positive. Otherwise it is an item, and an item that is not found gives no output. Several words: the last word must be a positive integer, else no output. An item that is not found leaves the held amount in place. The outcome is never "Unable to find". |
| `Splitter.LegacyMessage` | src/main/java/com/splitter/SplitterPlugin.java:388-457 | The `!split` chat-line resolver writes the no-cash text with all of it highlighted, and the split texts with the "Platinum Token" label and the name and numbers highlighted. It writes nothing for silent, throwing or unfound outcomes. |

## Left out

- Plugin lifecycle, event subscription and dependency injection (`onCommandExecuted`, `startUp`, `shutDown`, `provideConfig`): host-framework wiring. `registerCommandAsync` dispatches asynchronously, and the model is one synchronous call.
- Queuing the message, `setRuneLiteFormatMessage`, `refreshChat` and logging: output side effects. The model returns the outcome and the message value instead.
- `ItemManager.search`, `getWikiPrice`, `getPrice` and `useWikiItemPrices`: the catalogue and its configuration are not visible. They are the `search` parameter, whose records carry the selected price.
- `ChatMessageBuilder` tag rendering and `QuantityFormatter.formatNumber` digit grouping: library code. Colours are abstract markers, and the number formatter is an uninterpreted parameter.
- `ItemContainer.contains`/`count`: library code. The container is the pair of query functions, so how `count` sums stacks (and any overflow in that sum) is not modelled.
- SplitterConfig.java is not part of this model: its only content, the default split size 2, is a parameter.
- The `ChatMessage` argument of the `!split` chat-line `computeSplit` serves only to reach the message node that is rewritten; it is dropped.
- Exceptions other than the division by zero cannot occur on these paths (`substring(7)` is guarded by the length test). The `ArithmeticException` is the `DivisionByZero` outcome, and what the host does with it is not modelled.
- `JavaLang.ParseInt`: accepts ASCII digits only. `Integer.parseInt` also accepts other Unicode decimal digits.
- `JavaLang.EqualsIgnoreCase`: folds ASCII letters only. Java also folds non-ASCII letters.
- String lengths are counted in characters. Java's `String.length()` counts UTF-16 code units, so names with supplementary characters can rank differently in `ItemSearch.Shortest`.
