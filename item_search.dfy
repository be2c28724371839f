/**
 * Looking an item up by name: which phrase is searched (`itemPriceLookup`),
 * the search itself (`itemPrice`) and the choice of the best candidate
 * (`retrieveFromList`). The item catalogue is the parameter `search`; the
 * price it reports for an item is the one the configuration selects.
 */
module ItemSearch {
  import opened Wrappers
  import opened JavaLang

  /** A catalogue entry: the item's name and its price. */
  datatype ItemPrice = ItemPrice(name: string, price: Int32)

  // ---------------------------------------------------------------------------
  // The best candidate
  // ---------------------------------------------------------------------------

  /** The first position whose name equals `input` ignoring case, if any. */
  function FirstExactMatch(items: seq<ItemPrice>, input: string): (r: Option<nat>)
    ensures r.Some? ==> r.value < |items| && EqualsIgnoreCase(items[r.value].name, input)
    ensures r.Some? ==> forall j :: 0 <= j < r.value ==> !EqualsIgnoreCase(items[j].name, input)
    ensures r.None? ==> forall j :: 0 <= j < |items| ==> !EqualsIgnoreCase(items[j].name, input)
    decreases |items|
  {
    if |items| == 0 then None
    else if EqualsIgnoreCase(items[0].name, input) then Some(0)
    else match FirstExactMatch(items[1..], input)
      case None => None
      case Some(k) => Some(k + 1)
  }

  /** The first position holding a name of the smallest length. */
  function Shortest(items: seq<ItemPrice>): (k: nat)
    requires |items| > 0
    ensures k < |items|
    ensures forall j :: 0 <= j < |items| ==> |items[k].name| <= |items[j].name|
    ensures forall j :: 0 <= j < k ==> |items[j].name| > |items[k].name|
    decreases |items|
  {
    if |items| == 1 then 0
    else
      var k := 1 + Shortest(items[1..]);
      if |items[k].name| < |items[0].name| then k else 0
  }

  /**
   * The candidate `retrieveFromList` settles on: the first exact match
   * ignoring case, otherwise the first of the shortest names; nothing only
   * for an empty list.
   */
  function BestMatch(items: seq<ItemPrice>, input: string): (r: Option<ItemPrice>)
    ensures r.None? <==> |items| == 0
    ensures r.Some? ==> r.value in items
  {
    if |items| == 0 then None
    else match FirstExactMatch(items, input)
      case Some(i) => Some(items[i])
      case None => Some(items[Shortest(items)])
  }

  /**
   * `retrieveFromList`: one pass over the candidates that returns at the
   * first exact match and otherwise remembers the first strictly shorter
   * name seen so far.
   */
  method RetrieveFromList(items: seq<ItemPrice>, originalInput: string) returns (r: Option<ItemPrice>)
    ensures r == BestMatch(items, originalInput)
  {
    var shortest: Option<ItemPrice> := None;
    ghost var at: nat := 0;
    for i := 0 to |items|
      invariant forall j :: 0 <= j < i ==> !EqualsIgnoreCase(items[j].name, originalInput)
      invariant shortest.None? <==> i == 0
      invariant i > 0 ==> at < i && shortest == Some(items[at])
      invariant i > 0 ==> forall j :: 0 <= j < i ==> |items[at].name| <= |items[j].name|
      invariant i > 0 ==> forall j :: 0 <= j < at ==> |items[j].name| > |items[at].name|
    {
      if EqualsIgnoreCase(items[i].name, originalInput) {
        return Some(items[i]);
      }
      if shortest.None? || |items[i].name| < |shortest.value.name| {
        shortest := Some(items[i]);
        at := i;
      }
    }
    if |items| > 0 {
      var k := Shortest(items);
      assert !(at < k) && !(k < at);
    }
    return shortest;
  }

  /**
   * Whatever comes before or after it, the first candidate whose name equals
   * the input ignoring case is the one chosen, even when shorter names exist.
   */
  lemma {:induction false} ExactMatchWins(items: seq<ItemPrice>, input: string, i: nat)
    requires i < |items| && EqualsIgnoreCase(items[i].name, input)
    requires forall j :: 0 <= j < i ==> !EqualsIgnoreCase(items[j].name, input)
    ensures BestMatch(items, input) == Some(items[i])
  {
    var r := FirstExactMatch(items, input);
    assert r.Some?;
    assert !(r.value < i) && !(i < r.value);
  }

  /**
   * Without any exact match, the first name of the smallest length is the
   * one chosen, wherever it stands.
   */
  lemma {:induction false} ShortestWins(items: seq<ItemPrice>, input: string, k: nat)
    requires forall j :: 0 <= j < |items| ==> !EqualsIgnoreCase(items[j].name, input)
    requires k < |items| && forall j :: 0 <= j < |items| ==> |items[k].name| <= |items[j].name|
    requires forall j :: 0 <= j < k ==> |items[j].name| > |items[k].name|
    ensures BestMatch(items, input) == Some(items[k])
  {
    var s := Shortest(items);
    assert !(s < k) && !(k < s);
  }

  /**
   * An exact match ignoring case beats a strictly shorter name standing
   * before it, which the shortest-name rule alone would pick.
   */
  lemma BonesExactMatch()
    ensures BestMatch([ItemPrice("Bone", 10), ItemPrice("Dragon bones", 2000), ItemPrice("Bones", 90)], "bones")
      == Some(ItemPrice("Bones", 90))
  {
    var items := [ItemPrice("Bone", 10), ItemPrice("Dragon bones", 2000), ItemPrice("Bones", 90)];
    assert EqualsIgnoreCase(items[2].name, "bones") by {
      assert ToUpperAscii('B') == ToUpperAscii('b');
    }
    assert !EqualsIgnoreCase(items[0].name, "bones") && !EqualsIgnoreCase(items[1].name, "bones");
    ExactMatchWins(items, "bones", 2);
  }

  /** Without an exact match the shorter name is chosen, wherever it stands. */
  lemma BoneShortestMatch()
    ensures BestMatch([ItemPrice("Bones of contention", 5), ItemPrice("Dragon bones", 2000)], "bone")
      == Some(ItemPrice("Dragon bones", 2000))
  {
    var items := [ItemPrice("Bones of contention", 5), ItemPrice("Dragon bones", 2000)];
    assert !EqualsIgnoreCase(items[0].name, "bone") && !EqualsIgnoreCase(items[1].name, "bone");
    assert |items[1].name| < |items[0].name|;
  }

  // ---------------------------------------------------------------------------
  // Searching
  // ---------------------------------------------------------------------------

  /**
   * `itemPrice`: search the catalogue for `substring` and pick the best
   * result, matching names against the searched phrase itself; nothing
   * exactly when the search finds nothing.
   */
  function ItemPriceSearch(search: string -> seq<ItemPrice>, substring: string): (r: Option<ItemPrice>)
    ensures r.None? <==> |search(substring)| == 0
    ensures r.Some? ==> r.value in search(substring)
    ensures r.Some? ==>
      match FirstExactMatch(search(substring), substring)
      case Some(i) => r.value == search(substring)[i]
      case None => r.value == search(substring)[Shortest(search(substring))]
  {
    var results := search(substring);
    if |results| != 0 then BestMatch(results, substring) else None
  }

  /**
   * The first search result whose name equals the searched phrase ignoring
   * case is the one `itemPrice` returns.
   */
  lemma SearchedPhraseWins(search: string -> seq<ItemPrice>, p: string, i: nat)
    requires i < |search(p)| && EqualsIgnoreCase(search(p)[i].name, p)
    requires forall j :: 0 <= j < i ==> !EqualsIgnoreCase(search(p)[j].name, p)
    ensures ItemPriceSearch(search, p) == Some(search(p)[i])
  {
    ExactMatchWins(search(p), p, i);
  }

  /**
   * `itemPriceLookup`: a phrase that parses as an `int` is a split size and
   * is never searched; a phrase of two or more words whose last word parses
   * is searched as its other words run together; any other phrase is
   * searched as it is.
   */
  function ItemPriceLookup(search: string -> seq<ItemPrice>, substring: string): (r: Option<ItemPrice>)
    ensures ParseInt(substring).Some? ==> r.None?
    ensures ' ' !in substring && ParseInt(substring).None? ==> r == ItemPriceSearch(search, substring)
    ensures var parts := JavaSplit(substring);
      |parts| >= 2 && ParseInt(parts[|parts| - 1]).Some? ==>
        r == ItemPriceSearch(search, JoinWith("", parts[..|parts| - 1]))
    ensures var parts := JavaSplit(substring);
      ParseInt(substring).None? && !(|parts| >= 2 && ParseInt(parts[|parts| - 1]).Some?) ==>
        r == ItemPriceSearch(search, substring)
  {
    var substringParts := JavaSplit(substring);
    if |substringParts| < 2 then
      if ParseInt(substring).Some? then None else ItemPriceSearch(search, substring)
    else if ParseInt(substringParts[|substringParts| - 1]).Some? then
      ItemPriceSearch(search, JoinWith("", substringParts[..|substringParts| - 1]))
    else
      ItemPriceSearch(search, substring)
  }
}
