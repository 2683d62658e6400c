/**
 * The recommendation engine (`RecommendationEngine`): suggestions built from
 * three sources (items often bought together with the current ones, the
 * season's items and the items the user is due to restock), deduplicated by
 * item name and cut to five; the purchase history that feeds the restock
 * source; substitutes for an unavailable item; and a price range per item.
 *
 * The clock is a parameter: `month` is the current month (1 to 12) and `now`
 * the current instant in microseconds, the unit of every timestamp. Confidences
 * are whole percentages and prices whole cents.
 */
module Recommendations {
  import opened Wrappers
  import opened Text
  import opened Lists

  datatype Kind = FrequentlyTogether | Seasonal | Restock

  datatype Recommendation = Recommendation(item: string, reason: string, confidence: nat, kind: Kind)

  /** A user's purchase history: item names with the instant of their last purchase, in insertion order. */
  type History = seq<(string, int)>

  const SeasonalItems: map<string, seq<string>> := map[
    "summer" := ["watermelon", "strawberries", "ice cream", "popsicles", "sunscreen"],
    "winter" := ["hot chocolate", "soup", "bread", "wine", "cheese"],
    "spring" := ["fresh vegetables", "berries", "salad", "spring onions"],
    "fall" := ["pumpkin", "apples", "squash", "cranberries", "turkey"]
  ]

  const Together: map<string, seq<string>> := map[
    "milk" := ["bread", "eggs", "butter"],
    "eggs" := ["milk", "butter", "bread"],
    "bread" := ["butter", "jam", "milk"],
    "pasta" := ["sauce", "cheese", "olive oil"],
    "chicken" := ["garlic", "onion", "salt"]
  ]

  /** Days between purchases after which an item is due again. */
  const RestockDays: map<string, nat> := map["milk" := 7, "bread" := 3, "eggs" := 14, "water" := 7]

  const MicrosPerDay: nat := 86_400_000_000
  const MaxRecommendations: nat := 5
  const TogetherConfidence: nat := 80
  const SeasonalConfidence: nat := 60
  const RestockConfidence: nat := 90

  // ---------------------------------------------------------------------------
  // Frequently bought together

  /** The partners of `seed` that are not among the current items, in table order. */
  function Partners(seed: string, partners: seq<string>, current: seq<string>): (r: seq<Recommendation>)
    ensures forall k :: 0 <= k < |r| ==>
      r[k] == Recommendation(r[k].item, "Often bought with " + seed, TogetherConfidence, FrequentlyTogether)
    ensures forall k :: 0 <= k < |r| ==> r[k].item in partners && r[k].item !in current
    ensures forall p :: p in partners && p !in current ==> exists k :: 0 <= k < |r| && r[k].item == p
    decreases |partners|
  {
    if partners == [] then []
    else
      var rest := Partners(seed, partners[..|partners| - 1], current);
      var p := partners[|partners| - 1];
      assert forall x :: x in partners ==> x in partners[..|partners| - 1] || x == p;
      if p in current then rest
      else
        var r := rest + [Recommendation(p, "Often bought with " + seed, TogetherConfidence, FrequentlyTogether)];
        assert r[|rest|].item == p;
        assert forall k :: 0 <= k < |rest| ==> r[k] == rest[k];
        r
  }

  /** The partners keep their table order. */
  lemma {:induction false} PartnersInTableOrder(seed: string, partners: seq<string>, current: seq<string>)
    ensures IsSubsequence(ItemsOf(Partners(seed, partners, current)), partners)
    decreases |partners|
  {
    if partners != [] {
      var init := partners[..|partners| - 1];
      var rest := Partners(seed, init, current);
      var p := partners[|partners| - 1];
      PartnersInTableOrder(seed, init, current);
      assert partners == init + [p];
      SubsequenceSnoc(ItemsOf(rest), init, p);
      if p !in current {
        ItemsOfSnoc(rest, Recommendation(p, "Often bought with " + seed, TogetherConfidence, FrequentlyTogether));
      }
    }
  }

  /** The recommendations contributed by one current item: none unless it is a table key. */
  function Companions(seed: string, current: seq<string>): seq<Recommendation> {
    if seed in Together then Partners(seed, Together[seed], current) else []
  }

  /**
   * The "frequently together" source: for each of `seeds` in order, its
   * partners missing from `current`. Duplicates across seeds are kept.
   */
  function TogetherRecs(seeds: seq<string>, current: seq<string>): (r: seq<Recommendation>)
    decreases |seeds|
  {
    if seeds == [] then []
    else TogetherRecs(seeds[..|seeds| - 1], current) + Companions(seeds[|seeds| - 1], current)
  }

  /**
   * Every "frequently together" entry names a partner of a current item that
   * is a table key, is itself absent from the current items, and carries
   * confidence 80 and the reason "Often bought with" that item.
   */
  lemma {:induction false} TogetherEntries(seeds: seq<string>, current: seq<string>)
    ensures forall x :: x in TogetherRecs(seeds, current) ==>
      x.item !in current && x.confidence == TogetherConfidence && x.kind == FrequentlyTogether &&
      exists seed :: seed in seeds && seed in Together && x.item in Together[seed] &&
        x.reason == "Often bought with " + seed
    decreases |seeds|
  {
    if seeds != [] {
      var init := seeds[..|seeds| - 1];
      var seed := seeds[|seeds| - 1];
      TogetherEntries(init, current);
      assert forall s :: s in init ==> s in seeds;
      forall x | x in TogetherRecs(seeds, current)
        ensures x.item !in current && x.confidence == TogetherConfidence && x.kind == FrequentlyTogether &&
          exists seed :: seed in seeds && seed in Together && x.item in Together[seed] &&
            x.reason == "Often bought with " + seed
      {
        if x !in TogetherRecs(init, current) {
          assert x in Companions(seed, current);
        }
      }
    }
  }

  /**
   * Conversely, every partner of a current item that is a table key is
   * recommended with that item as the reason, unless it is current itself.
   */
  lemma {:induction false} TogetherComplete(seeds: seq<string>, current: seq<string>, i: int, p: string)
    requires 0 <= i < |seeds| && seeds[i] in Together && p in Together[seeds[i]] && p !in current
    ensures Recommendation(p, "Often bought with " + seeds[i], TogetherConfidence, FrequentlyTogether)
      in TogetherRecs(seeds, current)
    decreases |seeds|
  {
    var init := seeds[..|seeds| - 1];
    if i < |seeds| - 1 {
      TogetherComplete(init, current, i, p);
      assert init[i] == seeds[i];
    } else {
      var c := Companions(seeds[i], current);
      var k :| 0 <= k < |c| && c[k].item == p;
      assert c[k] in TogetherRecs(seeds, current);
    }
  }

  // ---------------------------------------------------------------------------
  // Seasonal

  /** The season of a month: 3 to 5 spring, 6 to 8 summer, 9 to 11 fall, any other winter. */
  function Season(month: int): (s: string)
    ensures s in SeasonalItems
  {
    if 3 <= month <= 5 then "spring"
    else if 6 <= month <= 8 then "summer"
    else if 9 <= month <= 11 then "fall"
    else "winter"
  }

  /** One seasonal recommendation per listed item. */
  function SeasonalFor(season: string, items: seq<string>): (r: seq<Recommendation>)
    ensures |r| == |items|
    ensures forall k :: 0 <= k < |r| ==>
      r[k] == Recommendation(items[k], "In season this " + season, SeasonalConfidence, Seasonal)
  {
    if items == [] then [] else
    SeasonalFor(season, items[..|items| - 1]) +
      [Recommendation(items[|items| - 1], "In season this " + season, SeasonalConfidence, Seasonal)]
  }

  /** `_get_seasonal_recommendations`: the first three items of the season's list. */
  function SeasonalRecs(month: int): (r: seq<Recommendation>)
  {
    var season := Season(month);
    var items := SeasonalItems[season];
    SeasonalFor(season, if |items| <= 3 then items else items[..3])
  }

  /**
   * The seasonal source is exactly three entries, the first three items of
   * the season's list in order, whoever the user and whatever the list holds.
   */
  lemma SeasonalFirstThree(month: int)
    ensures |SeasonalRecs(month)| == 3
    ensures forall k :: 0 <= k < 3 ==>
      SeasonalRecs(month)[k] ==
        Recommendation(SeasonalItems[Season(month)][k], "In season this " + Season(month), SeasonalConfidence, Seasonal)
  {
    var season := Season(month);
    assert |SeasonalItems[season]| >= 4 by {
      assert season in {"spring", "summer", "fall", "winter"};
    }
  }

  // ---------------------------------------------------------------------------
  // Restock

  /** Whole days from `last` to `now`, rounded down like `timedelta.days`. */
  function DaysSince(last: int, now: int): int {
    (now - last) / MicrosPerDay
  }

  /** The restock entry for one history entry, if that item is due. */
  function Due(entry: (string, int), now: int): (r: Option<Recommendation>)
    ensures r.Some? <==> entry.0 in RestockDays && DaysSince(entry.1, now) > RestockDays[entry.0]
    ensures r.Some? ==> r.value.item == entry.0 && r.value.confidence == RestockConfidence && r.value.kind == Restock
    ensures r.Some? ==>
      r.value.reason == "Time to restock (last bought " + NatToDecimal(DaysSince(entry.1, now)) + " days ago)"
  {
    var (item, last) := entry;
    if item in RestockDays && DaysSince(last, now) > RestockDays[item] then
      var days: nat := DaysSince(last, now);
      Some(Recommendation(item, "Time to restock (last bought " + NatToDecimal(days) + " days ago)",
                          RestockConfidence, Restock))
    else None
  }

  /** The restock entries of a history, in history order. */
  function RestockRecs(history: History, now: int): (r: seq<Recommendation>)
    decreases |history|
  {
    if history == [] then []
    else
      var init := RestockRecs(history[..|history| - 1], now);
      match Due(history[|history| - 1], now)
      case None => init
      case Some(rec) => init + [rec]
  }

  /** The history keys, in order. */
  function Keys(history: History): (r: seq<string>)
    ensures |r| == |history|
    ensures forall k :: 0 <= k < |r| ==> r[k] == history[k].0
  {
    if history == [] then [] else Keys(history[..|history| - 1]) + [history[|history| - 1].0]
  }

  /** The restock source follows the order of the history. */
  lemma {:induction false} RestockInHistoryOrder(history: History, now: int)
    ensures IsSubsequence(ItemsOf(RestockRecs(history, now)), Keys(history))
    decreases |history|
  {
    if history != [] {
      var init := history[..|history| - 1];
      var last := history[|history| - 1];
      RestockInHistoryOrder(init, now);
      var prev := RestockRecs(init, now);
      assert Keys(history) == Keys(init) + [last.0];
      SubsequenceSnoc(ItemsOf(prev), Keys(init), last.0);
      if Due(last, now).Some? {
        ItemsOfSnoc(prev, Due(last, now).value);
      }
    }
  }

  /**
   * Every restock entry comes from a history entry that is due: its item
   * has a restock interval and more whole days than that have passed.
   */
  lemma {:induction false} RestockOnlyDue(history: History, now: int)
    ensures forall x :: x in RestockRecs(history, now) ==> exists k :: 0 <= k < |history| && Due(history[k], now) == Some(x)
    decreases |history|
  {
    if history != [] {
      var init := history[..|history| - 1];
      RestockOnlyDue(init, now);
      forall x | x in RestockRecs(history, now)
        ensures exists k :: 0 <= k < |history| && Due(history[k], now) == Some(x)
      {
        if x in RestockRecs(init, now) {
          var k :| 0 <= k < |init| && Due(init[k], now) == Some(x);
          assert history[k] == init[k];
        } else {
          assert Due(history[|history| - 1], now) == Some(x);
        }
      }
    }
  }

  /** Conversely, every due history entry yields a restock entry. */
  lemma {:induction false} RestockComplete(history: History, now: int, k: int)
    requires 0 <= k < |history| && Due(history[k], now).Some?
    ensures Due(history[k], now).value in RestockRecs(history, now)
    decreases |history|
  {
    var init := history[..|history| - 1];
    if k < |history| - 1 {
      RestockComplete(init, now, k);
      assert init[k] == history[k];
    }
  }

  /**
   * `_get_low_stock_recommendations`: nothing for a user without a history,
   * otherwise the restock entries of the user's history.
   */
  function LowStock(histories: map<string, History>, user: string, now: int): (r: seq<Recommendation>)
    ensures user !in histories ==> r == []
    ensures user in histories ==> r == RestockRecs(histories[user], now)
  {
    if user in histories then RestockRecs(histories[user], now) else []
  }

  // ---------------------------------------------------------------------------
  // Deduplication and the whole result

  /** The item names of `recs`, in order. */
  function ItemsOf(recs: seq<Recommendation>): (r: seq<string>)
    ensures |r| == |recs|
    ensures forall k :: 0 <= k < |r| ==> r[k] == recs[k].item
  {
    if recs == [] then [] else ItemsOf(recs[..|recs| - 1]) + [recs[|recs| - 1].item]
  }

  lemma ItemsOfSnoc(recs: seq<Recommendation>, x: Recommendation)
    ensures ItemsOf(recs + [x]) == ItemsOf(recs) + [x.item]
  {
    assert (recs + [x])[..|recs|] == recs;
  }

  /** No two entries share an item name. */
  predicate DistinctItems(recs: seq<Recommendation>) {
    forall i, j :: 0 <= i < j < |recs| ==> recs[i].item != recs[j].item
  }

  /** Entry `i` is the first entry of `recs` with its item name. */
  predicate FirstWithItem(recs: seq<Recommendation>, i: int) {
    0 <= i < |recs| && forall j :: 0 <= j < i ==> recs[j].item != recs[i].item
  }

  /** `x` is the first entry of `recs` carrying its item name. */
  ghost predicate FirstEntry(recs: seq<Recommendation>, x: Recommendation) {
    exists i :: FirstWithItem(recs, i) && recs[i] == x
  }

  /**
   * The first entry for each item name, in order: the `seen` set loop of
   * `get_recommendations`.
   */
  function Dedup(recs: seq<Recommendation>): (r: seq<Recommendation>)
    ensures IsSubsequence(r, recs)
    ensures DistinctItems(r)
    ensures forall x :: x in r ==> x in recs
    decreases |recs|
  {
    if recs == [] then []
    else
      var init := recs[..|recs| - 1];
      var last := recs[|recs| - 1];
      var d := Dedup(init);
      assert recs == init + [last];
      SubsequenceSnoc(d, init, last);
      if last.item in ItemsOf(init) then d
      else
        assert forall k :: 0 <= k < |d| ==> d[k] in init;
        d + [last]
  }

  /** Every item name of `recs` keeps an entry. */
  lemma {:induction false} DedupKeepsEveryItem(recs: seq<Recommendation>)
    ensures forall x :: x in recs ==> exists k :: 0 <= k < |Dedup(recs)| && Dedup(recs)[k].item == x.item
  {
    forall x | x in recs
      ensures exists k :: 0 <= k < |Dedup(recs)| && Dedup(recs)[k].item == x.item
    {
      DedupKeepsItem(recs, x);
    }
  }

  lemma {:induction false} DedupKeepsItem(recs: seq<Recommendation>, x: Recommendation)
    requires x in recs
    ensures exists k :: 0 <= k < |Dedup(recs)| && Dedup(recs)[k].item == x.item
    decreases |recs|
  {
    var init := recs[..|recs| - 1];
    var last := recs[|recs| - 1];
    var d := Dedup(init);
    assert recs == init + [last];
    if last.item in ItemsOf(init) {
      assert Dedup(recs) == d;
      if x in init {
        DedupKeepsItem(init, x);
      } else {
        var j :| 0 <= j < |init| && ItemsOf(init)[j] == last.item;
        DedupKeepsItem(init, init[j]);
      }
    } else {
      assert Dedup(recs) == d + [last];
      if x in init {
        DedupKeepsItem(init, x);
        var k :| 0 <= k < |d| && d[k].item == x.item;
        assert Dedup(recs)[k] == d[k];
      } else {
        assert Dedup(recs)[|d|] == last;
      }
    }
  }

  /** The entry kept for an item name is the first entry with that name. */
  lemma {:induction false} DedupKeepsFirst(recs: seq<Recommendation>)
    ensures forall k :: 0 <= k < |Dedup(recs)| ==> FirstEntry(recs, Dedup(recs)[k])
  {
    forall k | 0 <= k < |Dedup(recs)|
      ensures FirstEntry(recs, Dedup(recs)[k])
    {
      var i := DedupEntryIsFirst(recs, k);
      assert FirstWithItem(recs, i) && recs[i] == Dedup(recs)[k];
    }
  }

  /** The position in `recs` of the `k`-th kept entry. */
  lemma {:induction false} DedupEntryIsFirst(recs: seq<Recommendation>, k: int) returns (i: int)
    requires 0 <= k < |Dedup(recs)|
    ensures FirstWithItem(recs, i) && recs[i] == Dedup(recs)[k]
    decreases |recs|
  {
    var init := recs[..|recs| - 1];
    var last := recs[|recs| - 1];
    var d := Dedup(init);
    if k < |d| {
      assert Dedup(recs)[k] == d[k];
      i := DedupEntryIsFirst(init, k);
      assert forall j :: 0 <= j <= i ==> recs[j] == init[j];
    } else {
      assert last.item !in ItemsOf(init);
      assert Dedup(recs)[k] == last;
      assert forall j :: 0 <= j < |init| ==> ItemsOf(init)[j] == recs[j].item;
      i := |recs| - 1;
    }
  }

  /**
   * The kept entries are exactly those at the first position of their item
   * name, in increasing position order: `pos` lists those positions. This
   * pins `Dedup` down completely.
   */
  lemma {:induction false} DedupPositions(recs: seq<Recommendation>) returns (pos: seq<int>)
    ensures |pos| == |Dedup(recs)|
    ensures forall k :: 0 <= k < |pos| ==> 0 <= pos[k] < |recs| && Dedup(recs)[k] == recs[pos[k]]
    ensures forall k, l :: 0 <= k < l < |pos| ==> pos[k] < pos[l]
    ensures forall i :: FirstWithItem(recs, i) <==> i in pos
    decreases |recs|
  {
    if recs == [] {
      pos := [];
    } else {
      var init := recs[..|recs| - 1];
      var last := recs[|recs| - 1];
      var p := DedupPositions(init);
      FirstWithItemPrefix(recs, init);
      LastEntry(recs);
      if last.item in ItemsOf(init) {
        pos := p;
      } else {
        pos := p + [|recs| - 1];
      }
      forall i ensures FirstWithItem(recs, i) <==> i in pos {
        if 0 <= i < |init| {
          assert FirstWithItem(recs, i) <==> i in p;
        } else if i != |recs| - 1 {
          assert i !in p;
        }
      }
    }
  }

  /** The last entry is kept exactly when it is the first with its item name. */
  lemma LastEntry(recs: seq<Recommendation>)
    requires recs != []
    ensures var init := recs[..|recs| - 1];
      FirstWithItem(recs, |recs| - 1) <==> recs[|recs| - 1].item !in ItemsOf(init)
  {
    var init := recs[..|recs| - 1];
    assert forall j :: 0 <= j < |init| ==> ItemsOf(init)[j] == recs[j].item;
    if recs[|recs| - 1].item in ItemsOf(init) {
      var j :| 0 <= j < |init| && ItemsOf(init)[j] == recs[|recs| - 1].item;
      assert recs[j].item == recs[|recs| - 1].item;
    }
  }

  /** Below the end of a prefix, being an item's first entry does not depend on what follows. */
  lemma FirstWithItemPrefix(recs: seq<Recommendation>, init: seq<Recommendation>)
    requires |init| <= |recs| && init == recs[..|init|]
    ensures forall i :: 0 <= i < |init| ==> (FirstWithItem(recs, i) <==> FirstWithItem(init, i))
  {
    assert forall j :: 0 <= j < |init| ==> recs[j] == init[j];
  }

  /** Python's `recs[:5]`: the first five entries, or all of them when there are fewer. */
  function Top(recs: seq<Recommendation>): (r: seq<Recommendation>)
    ensures |r| <= MaxRecommendations
    ensures |r| == if |recs| < MaxRecommendations then |recs| else MaxRecommendations
    ensures r == recs[..|r|]
  {
    if |recs| <= MaxRecommendations then recs else recs[..MaxRecommendations]
  }

  /** The three sources, in order: frequently together, seasonal, restock. */
  function Candidates(current: seq<string>, month: int, histories: map<string, History>, user: string, now: int)
    : seq<Recommendation>
  {
    TogetherRecs(current, current) + SeasonalRecs(month) + LowStock(histories, user, now)
  }

  /** `get_recommendations`: the first five of the deduplicated candidates. */
  function Recommend(current: seq<string>, month: int, histories: map<string, History>, user: string, now: int)
    : seq<Recommendation>
  {
    Top(Dedup(Candidates(current, month, histories, user, now)))
  }

  /**
   * The result is the first five of the deduplicated candidates (all of
   * them when there are fewer): no item twice, each taken from the
   * candidates with their relative order kept, and each the first candidate
   * for its item.
   */
  lemma RecommendShape(current: seq<string>, month: int, histories: map<string, History>, user: string, now: int)
    ensures var r := Recommend(current, month, histories, user, now);
      var c := Candidates(current, month, histories, user, now);
      |r| == (if |Dedup(c)| < MaxRecommendations then |Dedup(c)| else MaxRecommendations) &&
      r == Dedup(c)[..|r|] &&
      DistinctItems(r) && IsSubsequence(r, c) &&
      forall k :: 0 <= k < |r| ==> FirstEntry(c, r[k])
  {
    var c := Candidates(current, month, histories, user, now);
    var d := Dedup(c);
    DedupKeepsFirst(c);
    if |d| > MaxRecommendations {
      PrefixSubsequence(d, MaxRecommendations);
      SubsequenceTrans(d[..MaxRecommendations], d, c);
      assert forall k :: 0 <= k < MaxRecommendations ==> d[..MaxRecommendations][k] == d[k];
    }
  }

  // ---------------------------------------------------------------------------
  // Purchase history

  /** The position of the first entry named `item`, or `|history|` when there is none. */
  function IndexOf(history: History, item: string): (i: nat)
    ensures i <= |history|
    ensures i < |history| ==> history[i].0 == item
    ensures forall k :: 0 <= k < i ==> history[k].0 != item
    decreases |history|
  {
    if history == [] || history[0].0 == item then 0 else 1 + IndexOf(history[1..], item)
  }

  /** `IndexOf` is the one position with those properties. */
  lemma IndexOfExact(history: History, item: string, i: nat)
    requires i <= |history| && (i < |history| ==> history[i].0 == item)
    requires forall k :: 0 <= k < i ==> history[k].0 != item
    ensures IndexOf(history, item) == i
  {
  }

  /** The instant recorded for `item`, if any. */
  function Lookup(history: History, item: string): Option<int> {
    var i := IndexOf(history, item);
    if i < |history| then Some(history[i].1) else None
  }

  /** No item name occurs twice: a history is a dictionary. */
  predicate DistinctKeys(history: History) {
    forall i, j :: 0 <= i < j < |history| ==> history[i].0 != history[j].0
  }

  /** `history[item] = now`: an existing entry is overwritten where it is, a new one goes last. */
  function Stamp(history: History, item: string, now: int): (r: History)
    ensures |r| == if IndexOf(history, item) < |history| then |history| else |history| + 1
    ensures forall k :: 0 <= k < |history| ==> r[k].0 == history[k].0
    ensures |r| > |history| ==> r[|history|].0 == item
    ensures Lookup(r, item) == Some(now)
    ensures forall other :: other != item ==> Lookup(r, other) == Lookup(history, other)
  {
    var i := IndexOf(history, item);
    var r := if i < |history| then history[i := (item, now)] else history + [(item, now)];
    IndexOfExact(r, item, i);
    forall other | other != item ensures Lookup(r, other) == Lookup(history, other) {
      var j := IndexOf(history, other);
      if j < |history| {
        IndexOfExact(r, other, j);
      } else {
        IndexOfExact(r, other, |r|);
      }
    }
    r
  }

  /** Stamping keeps the names distinct. */
  lemma StampDistinct(history: History, item: string, now: int)
    requires DistinctKeys(history)
    ensures DistinctKeys(Stamp(history, item, now))
  {
  }

  /** `for item in items: history[item] = now`. */
  function StampAll(history: History, items: seq<string>, now: int): (r: History)
    decreases |items|
  {
    if items == [] then history
    else Stamp(StampAll(history, items[..|items| - 1], now), items[|items| - 1], now)
  }

  /**
   * After recording a purchase every listed item carries `now`, every other
   * item keeps its instant, the existing names keep their positions with the
   * new names after them, and no name is doubled.
   */
  lemma {:induction false} StampAllEffect(history: History, items: seq<string>, now: int)
    requires DistinctKeys(history)
    ensures var r := StampAll(history, items, now);
      DistinctKeys(r) && |history| <= |r| &&
      (forall x :: x in items ==> Lookup(r, x) == Some(now)) &&
      (forall x :: x !in items ==> Lookup(r, x) == Lookup(history, x)) &&
      (forall k :: 0 <= k < |history| ==> r[k].0 == history[k].0) &&
      (forall k :: |history| <= k < |r| ==> r[k].0 in items)
    decreases |items|
  {
    if items != [] {
      var init := items[..|items| - 1];
      var item := items[|items| - 1];
      StampAllEffect(history, init, now);
      var h := StampAll(history, init, now);
      StampDistinct(h, item, now);
      assert forall x :: x in items <==> x in init || x == item;
    }
  }

  // ---------------------------------------------------------------------------
  // Substitutes and prices

  datatype Substitute = Substitute(item: string, reason: string)

  const Substitutes: seq<(string, seq<string>)> := [
    ("milk", ["almond milk", "soy milk", "oat milk", "coconut milk"]),
    ("eggs", ["tofu", "applesauce", "mashed banana"]),
    ("butter", ["coconut oil", "olive oil", "margarine"]),
    ("wheat bread", ["rye bread", "sourdough", "multigrain"]),
    ("chicken", ["turkey", "tofu", "fish"]),
    ("beef", ["ground turkey", "lean pork", "veggie burger"])
  ]

  /** Each substitute, in order, with the reason naming the item as it was asked for. */
  function SubstitutesFor(item: string, subs: seq<string>): (r: seq<Substitute>)
    ensures |r| == |subs|
    ensures forall k :: 0 <= k < |r| ==> r[k] == Substitute(subs[k], "Substitute for " + item)
  {
    if subs == [] then []
    else SubstitutesFor(item, subs[..|subs| - 1]) + [Substitute(subs[|subs| - 1], "Substitute for " + item)]
  }

  /**
   * `get_substitute_products`: the substitutes of the first key, in table
   * order, inside the lower-cased item; empty when no key is.
   */
  function SubstituteProducts(item: string): (r: seq<Substitute>)
    ensures r == [] <==> forall i :: 0 <= i < |Substitutes| ==> !Contains(Lower(item), Substitutes[i].0)
    ensures forall i :: FirstHit(Substitutes, (key: string) => Contains(Lower(item), key), i)
                        ==> r == SubstitutesFor(item, Substitutes[i].1)
  {
    assert forall i :: 0 <= i < |Substitutes| ==> Substitutes[i].1 != [] by {
      forall i | 0 <= i < |Substitutes| ensures Substitutes[i].1 != [] {
        assert i in {0, 1, 2, 3, 4, 5};
      }
    }
    match First(Substitutes, (key: string) => Contains(Lower(item), key))
    case None => []
    case Some(subs) => SubstitutesFor(item, subs)
  }

  /** "milk" comes before "butter": "buttermilk" gets the milk substitutes. */
  lemma MilkBeforeButter(item: string)
    requires Contains(Lower(item), "milk")
    ensures SubstituteProducts(item) == SubstitutesFor(item, ["almond milk", "soy milk", "oat milk", "coconut milk"])
  {
    var hit := (key: string) => Contains(Lower(item), key);
    assert FirstHit(Substitutes, hit, 0);
  }

  /** A price range in cents. */
  datatype PriceRange = PriceRange(min: nat, max: nat, avg: nat)

  const Prices: map<string, PriceRange> := map[
    "milk" := PriceRange(250, 400, 320),
    "bread" := PriceRange(150, 350, 250),
    "eggs" := PriceRange(250, 450, 350),
    "apple" := PriceRange(50, 150, 100),
    "chicken" := PriceRange(400, 800, 600)
  ]

  const DefaultPrice := PriceRange(100, 1000, 500)

  /** The average lies within the range. */
  predicate Ordered(p: PriceRange) {
    p.min <= p.avg <= p.max
  }

  /** Every listed range, and the default, has its average within its bounds. */
  lemma PricesOrdered()
    ensures Ordered(DefaultPrice)
    ensures forall k :: k in Prices ==> Ordered(Prices[k])
  {
    forall k | k in Prices ensures Ordered(Prices[k]) {
      assert k in {"milk", "bread", "eggs", "apple", "chicken"};
    }
  }

  /** `get_price_range_by_item`: the range for exactly the lower-cased item, or the default. */
  function PriceRangeOf(item: string): (r: PriceRange)
    ensures Ordered(r)
    ensures Lower(item) in Prices ==> r == Prices[Lower(item)]
    ensures r != DefaultPrice ==> Lower(item) in Prices
  {
    PricesOrdered();
    if Lower(item) in Prices then Prices[Lower(item)] else DefaultPrice
  }

  /** The lookup is exact: "apples" is not "apple" and gets the default range. */
  lemma ApplesGetDefault()
    ensures PriceRangeOf("apples") == DefaultPrice
  {
    assert Lower("apples") == "apples";
  }

  /** The first candidate is always kept, in first place. */
  lemma {:induction false} DedupHead(recs: seq<Recommendation>)
    requires recs != []
    ensures Dedup(recs) != [] && Dedup(recs)[0] == recs[0]
    decreases |recs|
  {
    var init := recs[..|recs| - 1];
    if init != [] {
      DedupHead(init);
      assert init[0] == recs[0];
    }
  }

  /** "bread" is the first partner of "milk". */
  lemma MilkCompanions()
    ensures var c := Companions("milk", ["milk"]);
      c != [] && c[0] == Recommendation("bread", "Often bought with milk", TogetherConfidence, FrequentlyTogether)
  {
    var partners := ["bread", "eggs", "butter"];
    assert "milk" in Together && Together["milk"] == partners;
    assert Companions("milk", ["milk"]) == Partners("milk", partners, ["milk"]);
    assert partners[0] !in ["milk"];
    PartnersPrefixHead("milk", partners, ["milk"]);
    MilkReason();
  }

  /** The reason text for "milk", spelled out. */
  lemma MilkReason()
    ensures "Often bought with " + "milk" == "Often bought with milk"
  {
  }

  /**
   * With "milk" the only current item, the first recommendation is "bread",
   * its first partner, whatever the month and the history.
   */
  lemma MilkSuggestsBread(month: int, histories: map<string, History>, user: string, now: int)
    ensures var r := Recommend(["milk"], month, histories, user, now);
      r != [] && r[0] == Recommendation("bread", "Often bought with milk", TogetherConfidence, FrequentlyTogether)
  {
    var current := ["milk"];
    assert current[..0] == [];
    var together := TogetherRecs(current, current);
    assert together == Companions("milk", current);
    MilkCompanions();
    var c := Candidates(current, month, histories, user, now);
    assert c[0] == together[0];
    DedupHead(c);
  }

  /** The first partner absent from the current items heads the partners list. */
  lemma PartnersPrefixHead(seed: string, partners: seq<string>, current: seq<string>)
    requires partners != [] && partners[0] !in current
    ensures Partners(seed, partners, current) != []
    ensures Partners(seed, partners, current)[0].item == partners[0]
    decreases |partners|
  {
    if |partners| > 1 {
      PartnersPrefixHead(seed, partners[..|partners| - 1], current);
      assert partners[..|partners| - 1][0] == partners[0];
    }
  }

  /** Milk bought at `t0` is due eight days later. */
  lemma MilkDue(t0: int)
    ensures Due(("milk", t0), t0 + 8 * MicrosPerDay) ==
      Some(Recommendation("milk", "Time to restock (last bought 8 days ago)", RestockConfidence, Restock))
  {
    assert "milk" in RestockDays && RestockDays["milk"] == 7;
    assert DaysSince(t0, t0 + 8 * MicrosPerDay) == 8;
    assert NatToDecimal(8) == "8";
    assert "Time to restock (last bought " + "8" + " days ago)" == "Time to restock (last bought 8 days ago)";
  }

  /**
   * A new user who buys milk at `t0` is told to restock it eight days later,
   * the restock interval for milk being seven days.
   */
  lemma MilkDueAfterEightDays(user: string, t0: int)
    ensures LowStock(map[user := StampAll([], ["milk"], t0)], user, t0 + 8 * MicrosPerDay) ==
      [Recommendation("milk", "Time to restock (last bought 8 days ago)", RestockConfidence, Restock)]
  {
    var history := StampAll([], ["milk"], t0);
    assert ["milk"][..0] == [];
    assert StampAll([], ["milk"][..0], t0) == [];
    assert IndexOf([], "milk") == 0;
    assert history == [("milk", t0)];
    MilkDue(t0);
    assert history[..0] == [];
    assert RestockRecs(history, t0 + 8 * MicrosPerDay) == RestockRecs([], t0 + 8 * MicrosPerDay) + [Due(history[0], t0 + 8 * MicrosPerDay).value];
  }

  // ---------------------------------------------------------------------------
  // One loop iteration of each source, as the engine's loops take them

  lemma TogetherStep(seeds: seq<string>, i: nat, current: seq<string>)
    requires i < |seeds|
    ensures TogetherRecs(seeds[..i + 1], current) == TogetherRecs(seeds[..i], current) + Companions(seeds[i], current)
  {
    assert seeds[..i + 1][..i] == seeds[..i];
  }

  lemma PartnersStep(seed: string, partners: seq<string>, j: nat, current: seq<string>)
    requires j < |partners|
    ensures Partners(seed, partners[..j + 1], current) ==
      Partners(seed, partners[..j], current) +
      (if partners[j] in current then []
       else [Recommendation(partners[j], "Often bought with " + seed, TogetherConfidence, FrequentlyTogether)])
  {
    assert partners[..j + 1][..j] == partners[..j];
  }

  lemma DedupStep(recs: seq<Recommendation>, i: nat)
    requires i < |recs|
    ensures ItemsOf(recs[..i + 1]) == ItemsOf(recs[..i]) + [recs[i].item]
    ensures Dedup(recs[..i + 1]) ==
      if recs[i].item in ItemsOf(recs[..i]) then Dedup(recs[..i]) else Dedup(recs[..i]) + [recs[i]]
  {
    assert recs[..i + 1][..i] == recs[..i];
  }

  lemma RestockStep(history: History, i: nat, now: int)
    requires i < |history|
    ensures RestockRecs(history[..i + 1], now) ==
      match Due(history[i], now)
      case None => RestockRecs(history[..i], now)
      case Some(rec) => RestockRecs(history[..i], now) + [rec]
  {
    assert history[..i + 1][..i] == history[..i];
  }

  lemma StampAllStep(history: History, items: seq<string>, i: nat, now: int)
    requires i < |items|
    ensures StampAll(history, items[..i + 1], now) == Stamp(StampAll(history, items[..i], now), items[i], now)
  {
    assert items[..i + 1][..i] == items[..i];
  }

  // ---------------------------------------------------------------------------
  // The engine

  class RecommendationEngine {
    /** Each user's purchase history. */
    var userHistory: map<string, History>

    ghost predicate Valid()
      reads this
    {
      forall user :: user in userHistory ==> DistinctKeys(userHistory[user])
    }

    constructor()
      ensures Valid() && userHistory == map[]
    {
      userHistory := map[];
    }

    /** `get_recommendations`, at month `month` and instant `now`. */
    method GetRecommendations(userId: string, currentItems: seq<string>, month: int, now: int)
      returns (r: seq<Recommendation>)
      ensures r == Recommend(currentItems, month, userHistory, userId, now)
    {
      var recs: seq<Recommendation> := [];
      for i := 0 to |currentItems|
        invariant recs == TogetherRecs(currentItems[..i], currentItems)
      {
        TogetherStep(currentItems, i, currentItems);
        var companions := CompanionsOf(currentItems[i], currentItems);
        recs := recs + companions;
      }
      assert currentItems[..|currentItems|] == currentItems;
      recs := recs + SeasonalRecs(month);
      var lowStock := LowStockRecommendations(userId, now);
      recs := recs + lowStock;
      var unique := Unique(recs);
      r := if |unique| <= MaxRecommendations then unique else unique[..MaxRecommendations];
    }

    /** The `seen` loop of `get_recommendations`: the first entry for each item name, in order. */
    static method Unique(recs: seq<Recommendation>) returns (unique: seq<Recommendation>)
      ensures unique == Dedup(recs)
    {
      var seen: set<string> := {};
      unique := [];
      for i := 0 to |recs|
        invariant unique == Dedup(recs[..i])
        invariant forall x :: x in seen <==> x in ItemsOf(recs[..i])
      {
        DedupStep(recs, i);
        if recs[i].item !in seen {
          unique := unique + [recs[i]];
          seen := seen + {recs[i].item};
        }
      }
      assert recs[..|recs|] == recs;
    }

    /** The inner loop of the first source: the partners of `item` missing from `currentItems`. */
    static method CompanionsOf(item: string, currentItems: seq<string>) returns (recs: seq<Recommendation>)
      ensures recs == Companions(item, currentItems)
    {
      recs := [];
      if item in Together {
        var partners := Together[item];
        for j := 0 to |partners|
          invariant recs == Partners(item, partners[..j], currentItems)
        {
          PartnersStep(item, partners, j, currentItems);
          if partners[j] !in currentItems {
            recs := recs + [Recommendation(partners[j], "Often bought with " + item, TogetherConfidence, FrequentlyTogether)];
          }
        }
        assert partners[..|partners|] == partners;
      }
    }

    /** `_get_low_stock_recommendations`, at instant `now`. */
    method LowStockRecommendations(userId: string, now: int) returns (r: seq<Recommendation>)
      ensures r == LowStock(userHistory, userId, now)
    {
      r := [];
      if userId !in userHistory {
        return;
      }
      var history := userHistory[userId];
      for i := 0 to |history|
        invariant r == RestockRecs(history[..i], now)
      {
        RestockStep(history, i, now);
        var (item, last) := history[i];
        if item in RestockDays {
          var days := (now - last) / MicrosPerDay;
          var interval := RestockDays[item];
          if days > interval {
            assert Due(history[i], now).Some? && days == DaysSince(last, now);
            r := r + [Recommendation(item, "Time to restock (last bought " + NatToDecimal(days) + " days ago)",
                                     RestockConfidence, Restock)];
          }
        }
      }
      assert history[..|history|] == history;
    }

    /** `record_purchase`, at instant `now`. */
    method RecordPurchase(userId: string, items: seq<string>, now: int)
      requires Valid()
      modifies this
      ensures Valid()
      ensures userHistory ==
        old(userHistory)[userId := StampAll(if userId in old(userHistory) then old(userHistory)[userId] else [], items, now)]
    {
      if userId !in userHistory {
        userHistory := userHistory[userId := []];
      }
      ghost var start := userHistory[userId];
      for i := 0 to |items|
        invariant userHistory == old(userHistory)[userId := StampAll(start, items[..i], now)]
      {
        StampAllStep(start, items, i, now);
        userHistory := userHistory[userId := Stamp(userHistory[userId], items[i], now)];
      }
      assert items[..|items|] == items;
      StampAllEffect(start, items, now);
    }
  }
}
