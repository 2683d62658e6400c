/**
 * The command interpreter (`NLPProcessor`): turns the text of a voice
 * command into an intent, a list of item names, a quantity with its unit and
 * the category of the first item. Everything here is a pure function of the
 * text.
 */
module NlpProcessor {
  import opened Wrappers
  import opened Text
  import opened Lists
  import opened Patterns

  datatype Intent = Add | Remove | List | Search | Quantity | Unknown

  // ---------------------------------------------------------------------------
  // Intent

  /** The first ADD pattern: one of the verbs, anywhere in the text. */
  const AddVerbs: Regex := [Words(["add", "buy", "get", "need", "add me", "purchase", "put", "include"])]
  /** The second ADD pattern, "i need to buy" and its variants. */
  const AddPhrase: Regex := [NeedToBuy]
  const RemoveVerbs: Regex := [Words(["remove", "delete", "cancel", "take off", "strike", "eliminate"])]
  const ListWords: Regex :=
    [Words(["show", "display", "list"]), Gap("what", "have"), Gap("what", "got"), Words(["check"])]
  const SearchWords: Regex := [Words(["search", "find", "look for", "where"])]
  const QuantityUnits: Regex := [Numbered(["bottle", "piece", "kg", "liter", "pack", "box", "item", "items"])]

  /** The intent table, in declaration order: the patterns of each intent, and the intent. */
  const Intents: seq<(seq<Regex>, Intent)> := [
    ([AddVerbs, AddPhrase], Add),
    ([RemoveVerbs], Remove),
    ([ListWords], List),
    ([SearchWords], Search),
    ([QuantityUnits], Quantity)
  ]

  /** Some pattern of `patterns` is found in `t`. */
  predicate AnyFound(patterns: seq<Regex>, t: string) {
    exists k :: 0 <= k < |patterns| && Found(patterns[k], t)
  }

  /**
   * `_extract_intent`: the first intent, in declaration order, one of whose
   * patterns occurs anywhere in `t`; `Unknown` when none does.
   */
  function ExtractIntent(t: string): (r: Intent)
    ensures r == Add <==> AnyFound(Intents[0].0, t)
    ensures r == Remove <==> !AnyFound(Intents[0].0, t) && AnyFound(Intents[1].0, t)
    ensures r == List <==>
      !AnyFound(Intents[0].0, t) && !AnyFound(Intents[1].0, t) && AnyFound(Intents[2].0, t)
    ensures r == Search <==>
      !AnyFound(Intents[0].0, t) && !AnyFound(Intents[1].0, t) && !AnyFound(Intents[2].0, t)
      && AnyFound(Intents[3].0, t)
    ensures r == Quantity <==>
      !AnyFound(Intents[0].0, t) && !AnyFound(Intents[1].0, t) && !AnyFound(Intents[2].0, t)
      && !AnyFound(Intents[3].0, t) && AnyFound(Intents[4].0, t)
    ensures r == Unknown <==> forall i :: 0 <= i < |Intents| ==> !AnyFound(Intents[i].0, t)
  {
    var hit := (patterns: seq<Regex>) => AnyFound(patterns, t);
    var r := First(Intents, hit);
    assert FirstHit(Intents, hit, 0) || FirstHit(Intents, hit, 1) || FirstHit(Intents, hit, 2)
      || FirstHit(Intents, hit, 3) || FirstHit(Intents, hit, 4) || r.None?;
    r.GetOr(Unknown)
  }

  /**
   * Any text containing an ADD verb, even inside a longer word ("budget"
   * contains "get"), is an ADD command.
   */
  lemma AddVerbInside(t: string, k: nat)
    requires k < |AddVerbs[0].words| && Contains(t, AddVerbs[0].words[k])
    ensures ExtractIntent(t) == Add
  {
    FoundInside(AddVerbs, 0, k, t);
    assert Found(Intents[0].0[0], t);
  }

  /** "buy", "get" and "purchase" are all ADD verbs. */
  lemma BuyIsAddVerb(s: string)
    requires WordsSpan(Buys, s).Some?
    ensures AltSpan(AddVerbs, s).Some?
  {
    var k :| 0 <= k < |Buys| && PrefixCI(Buys[k], s);
    var verbs := AddVerbs[0].words;
    assert Buys[0] == verbs[1] && Buys[1] == verbs[2] && Buys[2] == verbs[5];
    assert PrefixCI(verbs[if k == 0 then 1 else if k == 1 then 2 else 5], s);
    assert Span(AddVerbs[0], s).Some?;
  }

  /** Where the "i need to buy" pattern matches, one of "buy", "get", "purchase" follows. */
  lemma PhraseEndsInBuy(u: string)
    requires AltSpan(AddPhrase, u).Some?
    ensures exists p :: 0 < p <= |u| && WordsSpan(Buys, u[p..]).Some?
  {
    assert Span(AddPhrase[0], u).Some?;
    assert NeedToBuySpan(u).Some?;
  }

  /** The second ADD pattern occurs only where an ADD verb occurs too. */
  lemma {:induction false} AddPhraseImpliesVerb(t: string)
    requires Found(AddPhrase, t)
    ensures Found(AddVerbs, t)
    decreases |t|
  {
    if AltSpan(AddPhrase, t).Some? {
      PhraseEndsInBuy(t);
      var p :| 0 < p <= |t| && WordsSpan(Buys, t[p..]).Some?;
      BuyFoundAsVerb(t, p);
    } else {
      AddPhraseImpliesVerb(t[1..]);
    }
  }

  lemma BuyFoundAsVerb(t: string, j: nat)
    requires j <= |t| && WordsSpan(Buys, t[j..]).Some?
    ensures Found(AddVerbs, t)
  {
    BuyIsAddVerb(t[j..]);
    FoundFrom(AddVerbs, t, j);
  }

  /**
   * The second ADD pattern never decides anything: ADD is chosen exactly
   * when an ADD verb occurs.
   */
  lemma AddPhraseRedundant(t: string)
    ensures AnyFound(Intents[0].0, t) <==> Found(AddVerbs, t)
  {
    var patterns := Intents[0].0;
    assert patterns == [AddVerbs, AddPhrase];
    if Found(AddPhrase, t) {
      AddPhraseImpliesVerb(t);
    }
    assert Found(patterns[0], t) <==> Found(AddVerbs, t);
  }

  /**
   * QUANTITY is reachable: a text in which no ADD, REMOVE, LIST or SEARCH
   * match starts anywhere, but an amount with a listed unit is found, is a
   * QUANTITY command.
   */
  lemma QuantityWhenOnlyAmount(t: string)
    requires Nowhere(AddVerbs, t) && Nowhere(AddPhrase, t) && Nowhere(RemoveVerbs, t)
    requires Nowhere(ListWords, t) && Nowhere(SearchWords, t)
    requires Found(QuantityUnits, t)
    ensures ExtractIntent(t) == Quantity
  {
    NoEarlierIntent(t);
    assert AnyFound(Intents[4].0, t) by {
      assert Found(Intents[4].0[0], t);
    }
  }

  lemma NoEarlierIntent(t: string)
    requires Nowhere(AddVerbs, t) && Nowhere(AddPhrase, t) && Nowhere(RemoveVerbs, t)
    requires Nowhere(ListWords, t) && Nowhere(SearchWords, t)
    ensures !AnyFound(Intents[0].0, t) && !AnyFound(Intents[1].0, t)
    ensures !AnyFound(Intents[2].0, t) && !AnyFound(Intents[3].0, t)
  {
    NotFoundNowhere(AddVerbs, t);
    NotFoundNowhere(AddPhrase, t);
    NotFoundNowhere(RemoveVerbs, t);
    NotFoundNowhere(ListWords, t);
    NotFoundNowhere(SearchWords, t);
    NoneFound(Intents[0].0, t);
    NoneFound(Intents[1].0, t);
    NoneFound(Intents[2].0, t);
    NoneFound(Intents[3].0, t);
  }

  lemma NoneFound(patterns: seq<Regex>, t: string)
    requires forall k :: 0 <= k < |patterns| ==> !Found(patterns[k], t)
    ensures !AnyFound(patterns, t)
  {
  }

  // ---------------------------------------------------------------------------
  // Items

  /** The substrings `_extract_items` deletes, in the order it deletes them. */
  const ItemVerbs: Regex := [Words(["add", "buy", "get", "need", "remove", "delete", "search", "find"])]
  const ItemAmounts: Regex := [Numbered(["bottle", "piece", "kg", "liter", "pack", "box"])]
  const ListPhrases: Regex := [Phrase("to", ["my", "list"]), Phrase("from", ["my", "list"])]

  const Stopwords: set<string> := {"the", "a", "an", "of", "to", "and", "or", "from", "in", "on", "at", "by"}

  /** The text with verbs, then amounts, then "to/from my list" deleted. */
  function Clean(t: string): string {
    Erase(ListPhrases, Erase(ItemAmounts, Erase(ItemVerbs, t)))
  }

  /** The comma-separated pieces of the cleaned text, each stripped. */
  function Segments(t: string): (r: seq<string>)
    ensures |r| == Occurrences(Clean(t), ',') + 1
    ensures |r| == |Split(Clean(t), ',')|
    ensures forall k :: 0 <= k < |r| ==> r[k] == Strip(Split(Clean(t), ',')[k])
    ensures forall k :: 0 <= k < |r| ==> IsTrimmed(r[k]) && ',' !in r[k]
  {
    var parts := Split(Clean(t), ',');
    var r := seq(|parts|, k requires 0 <= k < |parts| => Strip(parts[k]));
    assert forall k :: 0 <= k < |r| ==> ',' !in r[k] by {
      forall k | 0 <= k < |r| ensures ',' !in r[k] {
        StripKeepsAbsent(parts[k], ',');
      }
    }
    r
  }

  /** The test of the first comprehension. */
  predicate NonStop(s: string) {
    s != [] && s !in Stopwords
  }

  /** The test of the second comprehension. */
  predicate Long(s: string) {
    |s| > 1
  }

  /**
   * First comprehension: the pieces that are non-empty and not a stopword,
   * all of them, in order, each as often as it occurs.
   */
  function Candidates(pieces: seq<string>): (r: seq<string>)
    ensures forall k :: 0 <= k < |r| ==> r[k] != [] && r[k] !in Stopwords
    ensures IsSubsequence(r, pieces)
    ensures forall k :: 0 <= k < |pieces| && pieces[k] != [] && pieces[k] !in Stopwords ==> pieces[k] in r
    ensures |r| == CountWhere(pieces, NonStop)
  {
    if pieces == [] then []
    else
      var rest := Candidates(pieces[1..]);
      assert forall k :: 1 <= k < |pieces| ==> pieces[k] == pieces[1..][k - 1];
      if pieces[0] != [] && pieces[0] !in Stopwords then
        assert ([pieces[0]] + rest)[1..] == rest;
        [pieces[0]] + rest
      else
        rest
  }

  /** Second comprehension: the items longer than one character, all of them, in order, each as often as it occurs. */
  function LongEnough(items: seq<string>): (r: seq<string>)
    ensures forall k :: 0 <= k < |r| ==> |r[k]| > 1
    ensures IsSubsequence(r, items)
    ensures forall k :: 0 <= k < |items| && |items[k]| > 1 ==> items[k] in r
    ensures |r| == CountWhere(items, Long)
  {
    if items == [] then []
    else
      var rest := LongEnough(items[1..]);
      assert forall k :: 1 <= k < |items| ==> items[k] == items[1..][k - 1];
      if |items[0]| > 1 then
        assert ([items[0]] + rest)[1..] == rest;
        [items[0]] + rest
      else
        rest
  }

  /** What every extracted item satisfies. */
  predicate IsItem(s: string) {
    IsTrimmed(s) && ',' !in s && s !in Stopwords && |s| >= 2
  }

  /** The test the two comprehensions apply together, to a stripped piece. */
  predicate Kept(s: string) {
    s !in Stopwords && |s| > 1
  }

  /**
   * `_extract_items`: exactly the stripped pieces of the cleaned text that
   * pass `Kept`, in the order of the text and each as often as it occurs;
   * each is a trimmed, comma-free, non-stopword string of two characters or
   * more. (`FilterDetermined` shows these facts leave one possible result.)
   */
  function ExtractItems(t: string): (r: seq<string>)
    ensures forall k :: 0 <= k < |r| ==> IsItem(r[k])
    ensures IsSubsequence(r, Segments(t))
    ensures forall k :: 0 <= k < |Segments(t)| && Kept(Segments(t)[k]) ==> Segments(t)[k] in r
    ensures |r| == CountWhere(Segments(t), Kept)
  {
    var segments := Segments(t);
    var candidates := Candidates(segments);
    var r := LongEnough(candidates);
    ItemsFromSegments(segments, candidates, r);
    CountKept(segments);
    r
  }

  /** The two tests applied one after the other keep as many pieces as `Kept` does. */
  lemma {:induction false} CountKept(pieces: seq<string>)
    ensures CountWhere(Candidates(pieces), Long) == CountWhere(pieces, Kept)
    decreases |pieces|
  {
    if pieces != [] {
      CountKept(pieces[1..]);
      if NonStop(pieces[0]) {
        assert ([pieces[0]] + Candidates(pieces[1..]))[1..] == Candidates(pieces[1..]);
      }
    }
  }

  lemma ItemsFromSegments(segments: seq<string>, candidates: seq<string>, r: seq<string>)
    requires forall k :: 0 <= k < |segments| ==> IsTrimmed(segments[k]) && ',' !in segments[k]
    requires candidates == Candidates(segments) && r == LongEnough(candidates)
    ensures forall k :: 0 <= k < |r| ==> IsItem(r[k])
    ensures IsSubsequence(r, segments)
    ensures forall k :: 0 <= k < |segments| && Kept(segments[k]) ==> segments[k] in r
  {
    SubsequenceTrans(r, candidates, segments);
    SubsequenceMembers(r, candidates);
    SubsequenceMembers(candidates, segments);
    forall k | 0 <= k < |segments| && Kept(segments[k]) ensures segments[k] in r {
      var x := segments[k];
      assert x != [] && x !in Stopwords;
      assert x in candidates;
      var j :| 0 <= j < |candidates| && candidates[j] == x;
      assert |candidates[j]| > 1;
    }
    forall k | 0 <= k < |r| ensures IsItem(r[k]) {
      var x := r[k];
      assert x in candidates;
      var i :| 0 <= i < |candidates| && candidates[i] == x;
      assert x !in Stopwords;
      assert x in segments;
      var j :| 0 <= j < |segments| && segments[j] == x;
      assert IsTrimmed(x) && ',' !in x;
    }
  }

  /**
   * Deleting verbs, amounts and list phrases never deletes a comma, so there
   * is one segment per comma-separated part of the original text.
   */
  lemma SegmentPerComma(t: string)
    ensures |Segments(t)| == Occurrences(t, ',') + 1
  {
    VerbsAvoidComma();
    AmountsAvoidComma();
    ListPhrasesAvoidComma();
    var a := Erase(ItemVerbs, t);
    var b := Erase(ItemAmounts, a);
    EraseKeepsChar(ItemVerbs, t, ',');
    EraseKeepsChar(ItemAmounts, a, ',');
    EraseKeepsChar(ListPhrases, b, ',');
  }

  lemma VerbsAvoidComma()
    ensures forall k :: 0 <= k < |ItemVerbs| ==> Avoids(ItemVerbs[k], ',')
  {
    assert Avoids(ItemVerbs[0], ',');
  }

  lemma AmountsAvoidComma()
    ensures forall k :: 0 <= k < |ItemAmounts| ==> Avoids(ItemAmounts[k], ',')
  {
    assert Avoids(ItemAmounts[0], ',');
  }

  lemma ListPhrasesAvoidComma()
    ensures forall k :: 0 <= k < |ListPhrases| ==> Avoids(ListPhrases[k], ',')
  {
    assert Avoids(ListPhrases[0], ',') && Avoids(ListPhrases[1], ',');
  }

  // ---------------------------------------------------------------------------
  // Quantity

  datatype Amount = Amount(count: nat, unit: string)

  const DefaultAmount := Amount(1, "piece")

  /**
   * The amount read at the digit `t[i]`: the whole digit run, whitespace,
   * then the whole letter run, which is the unit when it is not empty.
   */
  function ReadAmount(t: string, i: nat): (q: Amount)
    requires i < |t| && IsDigit(t[i])
    ensures q.unit != [] && AllLetters(q.unit)
  {
    var j := Skip(t, i, IsDigit);
    var k := Skip(t, j, IsSpace);
    var l := Skip(t, k, IsLetter);
    assert AllDigits(t[i..j]) && AllLetters(t[k..l]);
    Amount(DigitsValue(t[i..j]), if l == k then "piece" else t[k..l])
  }

  /** The amount at the first digit at or after index `i`, or the default. */
  function QuantityFrom(t: string, i: nat): (q: Amount)
    requires i <= |t|
    ensures q.unit != [] && AllLetters(q.unit)
    ensures (forall m :: i <= m < |t| ==> !IsDigit(t[m])) ==> q == DefaultAmount
    decreases |t| - i
  {
    if i == |t| then DefaultAmount
    else if IsDigit(t[i]) then ReadAmount(t, i)
    else QuantityFrom(t, i + 1)
  }

  /**
   * `_extract_quantity`: `(\d+)\s*([a-z]+)?` searched in `t`; the default
   * (1, "piece") when `t` has no digit.
   */
  function ExtractQuantity(t: string): (q: Amount)
    ensures q.unit != [] && AllLetters(q.unit)
    ensures (forall m :: 0 <= m < |t| ==> !IsDigit(t[m])) ==> q == DefaultAmount
  {
    QuantityFrom(t, 0)
  }

  /**
   * The amount is read at the FIRST digit of `t`: `i..j` is the first digit
   * run, `j..k` the whitespace after it and `k..l` the letter run after that.
   * The count is the value of the whole digit run and the unit the whole
   * letter run, or "piece" when that run is empty.
   */
  lemma QuantityOfFirstNumber(t: string, i: nat, j: nat, k: nat, l: nat)
    requires i < j <= k <= l <= |t|
    requires forall m :: 0 <= m < i ==> !IsDigit(t[m])
    requires (forall m :: i <= m < j ==> IsDigit(t[m])) && (j < |t| ==> !IsDigit(t[j]))
    requires (forall m :: j <= m < k ==> IsSpace(t[m])) && (k < |t| ==> !IsSpace(t[k]))
    requires (forall m :: k <= m < l ==> IsLetter(t[m])) && (l < |t| ==> !IsLetter(t[l]))
    ensures ExtractQuantity(t) == Amount(DigitsValue(t[i..j]), if k == l then "piece" else t[k..l])
  {
    SkipsNonDigits(t, 0, i);
    SkipExact(t, IsDigit, i, j);
    SkipExact(t, IsSpace, j, k);
    SkipExact(t, IsLetter, k, l);
  }

  /** Scanning passes over characters that are not digits. */
  lemma {:induction false} SkipsNonDigits(t: string, p: nat, i: nat)
    requires p <= i <= |t|
    requires forall m :: p <= m < i ==> !IsDigit(t[m])
    ensures QuantityFrom(t, p) == QuantityFrom(t, i)
    decreases i - p
  {
    if p < i {
      SkipsNonDigits(t, p + 1, i);
    }
  }

  // ---------------------------------------------------------------------------
  // Category

  /** The category table, in declaration order: keywords, then category name. */
  const Categories: seq<(seq<string>, string)> := [
    (["milk", "cheese", "butter", "yogurt", "cream", "eggs"], "dairy"),
    (["apple", "banana", "orange", "carrot", "broccoli", "tomato", "lettuce"], "produce"),
    (["chicken", "beef", "pork", "fish", "turkey", "lamb"], "meat"),
    (["chips", "cookie", "candy", "chocolate", "popcorn", "nuts"], "snacks"),
    (["water", "juice", "soda", "coffee", "tea", "milk", "wine", "beer"], "beverages"),
    (["bread", "roll", "bagel", "donut", "cake", "pastry"], "bakery"),
    (["ice cream", "frozen vegetable", "frozen pizza", "frozen meal"], "frozen"),
    (["rice", "pasta", "oil", "salt", "sugar", "flour", "spice"], "pantry"),
    (["soap", "shampoo", "toothpaste", "deodorant", "lotion"], "personal_care"),
    (["detergent", "paper towel", "soap", "cleaner"], "household")
  ]

  const Uncategorized := "uncategorized"

  /** Some keyword of `keywords` is a substring of `s`. */
  predicate Mentions(s: string, keywords: seq<string>) {
    keywords != [] && (Contains(s, keywords[0]) || Mentions(s, keywords[1..]))
  }

  /**
   * `_categorize_item`: the first category, in table order, with a keyword
   * inside the lower-cased item; "uncategorized" when there is none.
   */
  function Categorize(item: string): (r: string)
    ensures forall i :: FirstHit(Categories, (keywords: seq<string>) => Mentions(Lower(item), keywords), i)
                        ==> r == Categories[i].1
  {
    First(Categories, (keywords: seq<string>) => Mentions(Lower(item), keywords)).GetOr(Uncategorized)
  }

  /** Every item gets a non-empty category name. */
  lemma CategoryNotEmpty(item: string)
    ensures Categorize(item) != ""
  {
    var hit := (keywords: seq<string>) => Mentions(Lower(item), keywords);
    if First(Categories, hit).Some? {
      var i :| FirstHit(Categories, hit, i);
      CategoryNamesDiffer();
      assert Categorize(item) == Categories[i].1;
    }
  }

  /** An item is "uncategorized" exactly when no category has a keyword inside it. */
  lemma UncategorizedIffNoKeyword(item: string)
    ensures Categorize(item) == Uncategorized <==>
            forall i :: 0 <= i < |Categories| ==> !Mentions(Lower(item), Categories[i].0)
  {
    var hit := (keywords: seq<string>) => Mentions(Lower(item), keywords);
    var found := First(Categories, hit);
    if found.Some? {
      var i :| FirstHit(Categories, hit, i);
      CategoryNamesDiffer();
      assert Categorize(item) == Categories[i].1;
    }
  }

  lemma CategoryNamesDiffer()
    ensures forall i :: 0 <= i < |Categories| ==> Categories[i].1 != Uncategorized && Categories[i].1 != ""
  {
    forall i | 0 <= i < |Categories| ensures Categories[i].1 != Uncategorized && Categories[i].1 != "" {
      assert i in {0, 1, 2, 3, 4, 5, 6, 7, 8, 9};
    }
  }

  /** Dairy is the first category, so an item mentioning "milk" is dairy, never a beverage. */
  lemma MilkIsDairy(item: string)
    requires Contains(Lower(item), "milk")
    ensures Categorize(item) == "dairy"
  {
    var hit := (keywords: seq<string>) => Mentions(Lower(item), keywords);
    assert FirstHit(Categories, hit, 0);
  }

  /**
   * "soap" is a keyword of personal care and of household; personal care
   * comes first, so an item mentioning "soap" is never household.
   */
  lemma SoapIsNotHousehold(item: string)
    requires Contains(Lower(item), "soap")
    ensures Categorize(item) != "household"
  {
    var hit := (keywords: seq<string>) => Mentions(Lower(item), keywords);
    assert hit(Categories[8].0);
    FirstHitAtOrBefore(Categories, hit, 8);
    var i :| 0 <= i <= 8 && FirstHit(Categories, hit, i);
    HouseholdIsLast(i);
  }

  lemma HouseholdIsLast(i: nat)
    requires i < 9
    ensures Categories[i].1 != "household"
  {
    assert i in {0, 1, 2, 3, 4, 5, 6, 7, 8};
  }

  // ---------------------------------------------------------------------------
  // Alternatives

  const Alternatives: seq<(string, seq<string>)> := [
    ("milk", ["almond milk", "soy milk", "oat milk", "coconut milk"]),
    ("bread", ["whole wheat bread", "sourdough bread", "multigrain bread"]),
    ("apple", ["pear", "orange", "banana"]),
    ("coffee", ["tea", "espresso"])
  ]

  /**
   * `find_alternatives`: the alternatives listed for the first key, in table
   * order, inside the lower-cased item; empty when no key is.
   */
  function FindAlternatives(item: string): (r: seq<string>)
    ensures r == [] <==> forall i :: 0 <= i < |Alternatives| ==> !Contains(Lower(item), Alternatives[i].0)
    ensures forall i :: FirstHit(Alternatives, (key: string) => Contains(Lower(item), key), i)
                        ==> r == Alternatives[i].1
  {
    assert forall i :: 0 <= i < |Alternatives| ==> Alternatives[i].1 != [] by {
      forall i | 0 <= i < |Alternatives| ensures Alternatives[i].1 != [] {
        assert i in {0, 1, 2, 3};
      }
    }
    First(Alternatives, (key: string) => Contains(Lower(item), key)).GetOr([])
  }

  /** "milk" is the first key: "buttermilk" gets the milk alternatives. */
  lemma MilkAlternatives(item: string)
    requires Contains(Lower(item), "milk")
    ensures FindAlternatives(item) == ["almond milk", "soy milk", "oat milk", "coconut milk"]
  {
    var hit := (key: string) => Contains(Lower(item), key);
    assert FirstHit(Alternatives, hit, 0);
  }

  // ---------------------------------------------------------------------------
  // The whole command

  datatype CommandResult = CommandResult(
    original: string,
    intent: Intent,
    items: seq<string>,
    quantity: Amount,
    category: Option<string>)

  /** `text.lower().strip()`. */
  function Normalize(text: string): string {
    Strip(Lower(text))
  }

  /**
   * `process_command`: every field is computed from the normalised text, and
   * only the first item is categorised.
   */
  function ProcessCommand(text: string): (r: CommandResult)
    ensures r.original == Strip(Lower(text))
    ensures IsLowerCase(r.original) && IsTrimmed(r.original)
    ensures r.intent == ExtractIntent(r.original)
    ensures r.items == ExtractItems(r.original)
    ensures r.quantity == ExtractQuantity(r.original)
    ensures r.category.None? <==> r.items == []
    ensures r.items != [] ==> r.category == Some(Categorize(r.items[0]))
  {
    var t := Normalize(text);
    StripKeepsLowerCase(Lower(text));
    var items := ExtractItems(t);
    CommandResult(
      t,
      ExtractIntent(t),
      items,
      ExtractQuantity(t),
      if items != [] then Some(Categorize(items[0])) else None)
  }

  /** Normalising is idempotent: the normalised text is lower-case and trimmed already. */
  lemma NormalizeIdempotent(text: string)
    ensures Normalize(Normalize(text)) == Normalize(text)
  {
    var t := Normalize(text);
    StripKeepsLowerCase(Lower(text));
    LowerOfLowerCase(t);
    StripIdempotent(Lower(text));
  }

  /** Interpreting the stored `original` text again gives the same result. */
  lemma ReprocessOriginal(text: string)
    ensures ProcessCommand(ProcessCommand(text).original) == ProcessCommand(text)
  {
    NormalizeIdempotent(text);
  }
}
