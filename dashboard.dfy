/**
 * What the dashboard does with the loaded items: the conjunctive filter
 * (tags, recency window, keyword), the per-source activity tally and its
 * ranking, and the shaping of what is displayed (at most 80 cards, summaries
 * cut to 350 characters, sorted distinct facet values for the selectors).
 */
module Dashboard {
  import opened Basics
  import opened Text
  import opened Dates
  import opened Order
  import opened Feed

  /** The viewer's selection: three tag sets, a keyword and a window in days. */
  datatype Criteria = Criteria(denoms: set<string>, focuses: set<string>, formats: set<string>,
                               keyword: string, days: int)

  /** `datetime.now(timezone.utc) - timedelta(days=days)`, as an instant. */
  function Cutoff(now: int, days: int): (cutoff: int)
    ensures now - cutoff == days * SecondsPerDay
  {
    now - days * SecondsPerDay
  }

  /**
   * The keyword test: a keyword that is all whitespace (the empty one
   * included) matches everything; any other must occur, lowered and
   * stripped, in the lowered title and summary.
   */
  predicate KeywordMatches(it: Item, keyword: string)
    ensures AllSpace(keyword) ==> KeywordMatches(it, keyword)
    ensures !AllSpace(keyword) ==>
      (KeywordMatches(it, keyword) <==> Occurs(Strip(Lower(keyword)), Lower(it.title + " " + it.summary)))
  {
    StripEmpty(keyword);
    Strip(keyword) != [] ==> Occurs(Strip(Lower(keyword)), Lower(it.title + " " + it.summary))
  }

  /** The conjunction of all filter conditions; an item exactly at the cutoff passes. */
  predicate Keep(it: Item, c: Criteria, cutoff: int)
    ensures Keep(it, c, cutoff) <==>
      it.denom in c.denoms && it.focus in c.focuses && it.format in c.formats && it.dt.Instant() >= cutoff
      && (AllSpace(c.keyword) || Occurs(Strip(Lower(c.keyword)), Lower(it.title + " " + it.summary)))
  {
    && it.denom in c.denoms
    && it.focus in c.focuses
    && it.format in c.formats
    && cutoff <= it.dt.Instant()
    && KeywordMatches(it, c.keyword)
  }

  /** The items that pass, in their original order. */
  function Selected(items: seq<Item>, c: Criteria, cutoff: int): seq<Item>
  {
    if items == [] then []
    else
      var n := |items| - 1;
      Selected(items[..n], c, cutoff) + (if Keep(items[n], c, cutoff) then [items[n]] else [])
  }

  /** The filter loop: each guard skips the item with `continue`, the survivors are appended. */
  method FilterItems(items: seq<Item>, c: Criteria, now: int) returns (filtered: seq<Item>)
    ensures filtered == Selected(items, c, Cutoff(now, c.days))
  {
    var cutoff := Cutoff(now, c.days);
    filtered := [];
    for i := 0 to |items|
      invariant filtered == Selected(items[..i], c, cutoff)
    {
      var it := items[i];
      assert items[..i + 1][..i] == items[..i];
      if it.denom !in c.denoms {
        continue;
      }
      if it.focus !in c.focuses {
        continue;
      }
      if it.format !in c.formats {
        continue;
      }
      if it.dt.Instant() < cutoff {
        continue;
      }
      if Strip(c.keyword) != [] {
        var blob := Lower(it.title + " " + it.summary);
        if !Find(Strip(Lower(c.keyword)), blob) {
          continue;
        }
      }
      filtered := filtered + [it];
    }
    assert items[..|items|] == items;
  }

  /** `a` is `b` with some elements left out, the rest in the same order. */
  predicate IsSubsequence<T(==)>(a: seq<T>, b: seq<T>)
    decreases |b|
  {
    if b == [] then a == []
    else
      (a != [] && a[|a| - 1] == b[|b| - 1] && IsSubsequence(a[..|a| - 1], b[..|b| - 1]))
      || IsSubsequence(a, b[..|b| - 1])
  }

  /** The filter keeps the order of the items and invents none. */
  lemma {:induction false} SelectedIsSubsequence(items: seq<Item>, c: Criteria, cutoff: int)
    ensures IsSubsequence(Selected(items, c, cutoff), items)
  {
    if items != [] {
      var n := |items| - 1;
      var front := Selected(items[..n], c, cutoff);
      SelectedIsSubsequence(items[..n], c, cutoff);
      if Keep(items[n], c, cutoff) {
        assert (front + [items[n]])[..|front|] == front;
      } else {
        assert front + [] == front;
      }
    }
  }

  /** Every selected item is one of the items and passes every condition. */
  lemma {:induction false} SelectedSound(items: seq<Item>, c: Criteria, cutoff: int, it: Item)
    requires it in Selected(items, c, cutoff)
    ensures it in items && Keep(it, c, cutoff)
  {
    var n := |items| - 1;
    if it in Selected(items[..n], c, cutoff) {
      SelectedSound(items[..n], c, cutoff, it);
    }
  }

  /** An item that passes every condition is kept, as often as it occurs. */
  lemma {:induction false} SelectedComplete(items: seq<Item>, c: Criteria, cutoff: int, it: Item)
    ensures multiset(Selected(items, c, cutoff))[it] == if Keep(it, c, cutoff) then multiset(items)[it] else 0
  {
    if items != [] {
      var n := |items| - 1;
      SelectedComplete(items[..n], c, cutoff, it);
      assert items == items[..n] + [items[n]];
    }
  }

  /** Lowering and stripping commute with the blank test: a blank keyword stays blank once lowered. */
  lemma {:induction false} BlankLower(s: string)
    ensures AllSpace(s) <==> AllSpace(Lower(s))
  {
  }

  /** A string strips to nothing exactly when it is all whitespace. */
  lemma StripEmpty(s: string)
    ensures Strip(s) == [] <==> AllSpace(s)
  {
    StripSpec(s);
    if Strip(s) == [] {
      var i :| 0 <= i <= |s| && AllSpace(s[..i]) && AllSpace(s[i..]);
      assert s == s[..i] + s[i..];
    } else {
      var i :| 0 <= i <= |s| - |Strip(s)| && AllSpace(s[..i]) && Strip(s) <= s[i..] && AllSpace(s[i + |Strip(s)|..]);
      assert s[i] == Strip(s)[0];
    }
  }

  /** The keyword test ignores the case of the keyword. */
  lemma KeywordCaseInsensitive(it: Item, keyword: string)
    ensures KeywordMatches(it, keyword) <==> KeywordMatches(it, Lower(keyword))
  {
    StripEmpty(keyword);
    StripEmpty(Lower(keyword));
    BlankLower(keyword);
    LowerIdempotent(keyword);
  }

  /** Number of items from source `src`. */
  function Count(items: seq<Item>, src: string): (n: nat)
    ensures n <= |items|
  {
    if items == [] then 0
    else
      var k := |items| - 1;
      Count(items[..k], src) + (if items[k].source == src then 1 else 0)
  }

  /** The sources of the items in order of first appearance: the key order of a Python dict built from them. */
  function FirstSeen(items: seq<Item>): (order: seq<string>)
    ensures forall i, j :: 0 <= i < j < |order| ==> order[i] != order[j]
    ensures forall src :: src in order <==> Count(items, src) > 0
  {
    if items == [] then []
    else
      var k := |items| - 1;
      var front := FirstSeen(items[..k]);
      if items[k].source in front then front else front + [items[k].source]
  }

  /** The sum of `counts` over `keys`. */
  function Total(keys: seq<string>, counts: map<string, nat>): int
    requires forall k :: k in keys ==> k in counts
  {
    if keys == [] then 0 else Total(keys[..|keys| - 1], counts) + counts[keys[|keys| - 1]]
  }

  /** The activity tally: one dictionary entry per source, counting its filtered items. */
  method TallyBySource(filtered: seq<Item>) returns (order: seq<string>, counts: map<string, nat>)
    ensures order == FirstSeen(filtered)
    ensures forall src :: src in counts <==> Count(filtered, src) > 0
    ensures forall src :: src in counts ==> counts[src] == Count(filtered, src)
    ensures forall src :: src in order <==> src in counts
    ensures Total(order, counts) == |filtered|
  {
    order, counts := [], map[];
    for i := 0 to |filtered|
      invariant order == FirstSeen(filtered[..i])
      invariant forall src :: src in counts <==> Count(filtered[..i], src) > 0
      invariant forall src :: src in counts ==> counts[src] == Count(filtered[..i], src)
    {
      assert filtered[..i + 1][..i] == filtered[..i];
      var src := filtered[i].source;
      if src !in counts {
        order := order + [src];
      }
      counts := counts[src := (if src in counts then counts[src] else 0) + 1];
    }
    assert filtered[..|filtered|] == filtered;
    TotalIsLength(filtered, counts);
  }

  /** Adding the counts of the first-seen sources gives back the number of items. */
  lemma {:induction false} TotalIsLength(items: seq<Item>, counts: map<string, nat>)
    requires forall src :: src in counts <==> Count(items, src) > 0
    requires forall src :: src in counts ==> counts[src] == Count(items, src)
    ensures Total(FirstSeen(items), counts) == |items|
  {
    SumOfCounts(FirstSeen(items), items, counts);
    SumOfCountsIsLength(items);
  }

  /** The sum of the counts of `keys`. */
  function CountSum(keys: seq<string>, items: seq<Item>): int
  {
    if keys == [] then 0 else CountSum(keys[..|keys| - 1], items) + Count(items, keys[|keys| - 1])
  }

  lemma {:induction false} SumOfCounts(keys: seq<string>, items: seq<Item>, counts: map<string, nat>)
    requires forall k :: k in keys ==> k in counts && counts[k] == Count(items, k)
    ensures Total(keys, counts) == CountSum(keys, items)
  {
    if keys != [] {
      SumOfCounts(keys[..|keys| - 1], items, counts);
    }
  }

  /** One more item adds one to the sum over distinct keys that include its source. */
  lemma {:induction false} CountSumStep(keys: seq<string>, items: seq<Item>, x: Item)
    requires forall i, j :: 0 <= i < j < |keys| ==> keys[i] != keys[j]
    ensures CountSum(keys, items + [x]) == CountSum(keys, items) + (if x.source in keys then 1 else 0)
  {
    if keys != [] {
      var n := |keys| - 1;
      CountSumStep(keys[..n], items, x);
      assert (items + [x])[..|items|] == items;
      assert x.source in keys <==> x.source in keys[..n] || x.source == keys[n];
      assert keys[n] !in keys[..n];
    }
  }

  lemma {:induction false} SumOfCountsIsLength(items: seq<Item>)
    ensures CountSum(FirstSeen(items), items) == |items|
  {
    if items != [] {
      var k := |items| - 1;
      var front := items[..k];
      var x := items[k];
      var f := FirstSeen(front);
      SumOfCountsIsLength(front);
      assert items == front + [x];
      CountSumStep(f, front, x);
      if x.source !in f {
        assert (f + [x.source])[..|f|] == f;
        assert Count(front, x.source) == 0;
      }
    }
  }

  /** One line of the activity list. */
  datatype Activity = Activity(source: string, count: nat)

  function ActivityCount(a: Activity): int
  {
    a.count
  }

  /** The dictionary's items in key order. */
  function Entries(order: seq<string>, counts: map<string, nat>): seq<Activity>
    requires forall k :: k in order ==> k in counts
  {
    seq(|order|, i requires 0 <= i < |order| => Activity(order[i], counts[order[i]]))
  }

  /** `sorted(activity.items(), key=count, reverse=True)`. */
  function Ranking(order: seq<string>, counts: map<string, nat>): (r: seq<Activity>)
    requires forall k :: k in order ==> k in counts
    ensures NonIncreasing(r, ActivityCount)
    ensures multiset(r) == multiset(Entries(order, counts))
  {
    SortDesc(Entries(order, counts), ActivityCount)
  }

  /** Sources with equal counts are listed in the order they were first seen. */
  lemma RankingStable(order: seq<string>, counts: map<string, nat>, n: int)
    requires forall k :: k in order ==> k in counts
    ensures WithKey(Ranking(order, counts), ActivityCount, n) == WithKey(Entries(order, counts), ActivityCount, n)
  {
    SortDescStable(Entries(order, counts), ActivityCount, n);
  }

  const SummaryLimit := 350
  const MaxCards := 80

  /** `summary[:350] + ("…" if len(summary) > 350 else "")`. */
  function Snippet(summary: string): (r: string)
    ensures |r| <= SummaryLimit + 1
    ensures |summary| <= SummaryLimit ==> r == summary
    ensures |summary| > SummaryLimit ==> |r| == SummaryLimit + 1 && summary[..SummaryLimit] <= r && r[SummaryLimit..] == "\U{2026}"
  {
    if |summary| > SummaryLimit then summary[..SummaryLimit] + "\U{2026}" else summary
  }

  /** Cutting an already cut summary changes nothing. */
  lemma SnippetIdempotent(summary: string)
    ensures Snippet(Snippet(summary)) == Snippet(summary)
  {
    if |summary| > SummaryLimit {
      assert Snippet(summary)[..SummaryLimit] == summary[..SummaryLimit];
    }
  }

  /** `filtered[:80]`. */
  function Shown(filtered: seq<Item>): (r: seq<Item>)
    ensures |r| <= MaxCards && r <= filtered
    ensures |filtered| <= MaxCards ==> r == filtered
    ensures |filtered| > MaxCards ==> |r| == MaxCards
  {
    if |filtered| <= MaxCards then filtered else filtered[..MaxCards]
  }

  /** What one rendered card shows; the timestamp's conversion to local time is not modelled. */
  datatype Card = Card(title: string, link: string, dt: DateTime, denom: string, focus: string,
                       source: string, snippet: Option<string>, home: string)

  /** One card; the summary line is written only when the summary is not empty. */
  function CardOf(it: Item): (card: Card)
    ensures card.snippet.None? <==> it.summary == ""
    ensures card.snippet.Some? ==> card.snippet.value == Snippet(it.summary) && |card.snippet.value| <= SummaryLimit + 1
    ensures card.title == it.title && card.link == it.link && card.source == it.source
    ensures card.dt == it.dt && card.denom == it.denom && card.focus == it.focus && card.home == it.home
  {
    Card(it.title, it.link, it.dt, it.denom, it.focus, it.source,
         if it.summary != "" then Some(Snippet(it.summary)) else None, it.home)
  }

  /** The cards of the feed column: the first 80 filtered items, in order. */
  function Cards(filtered: seq<Item>): (cards: seq<Card>)
    ensures |cards| <= MaxCards && |cards| <= |filtered|
    ensures |cards| == if |filtered| <= MaxCards then |filtered| else MaxCards
    ensures forall k :: 0 <= k < |cards| ==> cards[k] == CardOf(filtered[k])
  {
    var shown := Shown(filtered);
    seq(|shown|, k requires 0 <= k < |shown| => CardOf(shown[k]))
  }

  /** The option lists of the three selectors. */
  datatype Facets = Facets(denoms: seq<string>, focuses: seq<string>, formats: seq<string>)

  /** `sorted(set(s[tag] for s in SOURCES))` for each of the three tags. */
  function FacetsOf(sources: seq<Source>): (f: Facets)
    ensures StrictlyIncreasing(f.denoms) && StrictlyIncreasing(f.focuses) && StrictlyIncreasing(f.formats)
    ensures forall d :: d in f.denoms <==> exists s :: s in sources && s.denom == d
    ensures forall d :: d in f.focuses <==> exists s :: s in sources && s.focus == d
    ensures forall d :: d in f.formats <==> exists s :: s in sources && s.format == d
  {
    Facets(SortedDistinct(Tags(sources, (s: Source) => s.denom)),
           SortedDistinct(Tags(sources, (s: Source) => s.focus)),
           SortedDistinct(Tags(sources, (s: Source) => s.format)))
  }

  /** One tag of every source, in source order. */
  function Tags(sources: seq<Source>, tag: Source -> string): (values: seq<string>)
    ensures forall v :: v in values <==> exists s :: s in sources && tag(s) == v
  {
    if sources == [] then []
    else
      var rest := Tags(sources[1..], tag);
      assert forall s :: s in sources <==> s == sources[0] || s in sources[1..];
      [tag(sources[0])] + rest
  }

  /**
   * The selectors start with every facet value selected, so then no item of
   * a configured source is dropped for its tags.
   */
  lemma DefaultSelectionKeepsTags(sources: seq<Source>, i: int, it: Item)
    requires 0 <= i < |sources| && OwnedBy(it, sources[i])
    ensures var f := FacetsOf(sources);
      it.denom in f.denoms && it.focus in f.focuses && it.format in f.formats
  {
    assert sources[i] in sources;
  }

  /** Widening the window never drops an item. */
  lemma WiderWindowKeepsMore(it: Item, c: Criteria, now: int, days: int)
    requires c.days <= days && Keep(it, c, Cutoff(now, c.days))
    ensures Keep(it, c.(days := days), Cutoff(now, days))
  {
  }

  /**
   * A facet whose values are exactly `a` and `b`, with `a` below `b`, is
   * listed as `[a, b]`.
   */
  lemma TwoValues(r: seq<string>, a: string, b: string)
    requires StrictlyIncreasing(r) && Below(a, b)
    requires forall y :: y in r <==> y == a || y == b
    ensures r == [a, b]
  {
    BelowIrreflexive(a);
    IncreasingUnique(r, [a, b]);
  }

  /** The denomination selector for the configured sources. */
  lemma ConfiguredDenominations(sources: seq<Source>)
    requires sources == Sources
    ensures FacetsOf(sources).denoms == [Catholics, Protestants]
  {
    var r := FacetsOf(sources).denoms;
    assert Below(Catholics, Protestants) by {
      assert Catholics[0] == 'K' && Protestants[0] == 'P';
    }
    forall y
      ensures y in r <==> y == Catholics || y == Protestants
    {
      assert sources[0].denom == Catholics && sources[3].denom == Protestants;
      assert forall s :: s in sources ==> s.denom == Catholics || s.denom == Protestants;
    }
    TwoValues(r, Catholics, Protestants);
  }

  /** The focus selector for the configured sources. */
  lemma ConfiguredFocuses(sources: seq<Source>)
    requires sources == Sources
    ensures FacetsOf(sources).focuses == [Sermons, NewsArticles]
  {
    var r := FacetsOf(sources).focuses;
    assert Below(Sermons, NewsArticles) by {
      assert Sermons[0] == 'K' && NewsArticles[0] == 'S';
    }
    forall y
      ensures y in r <==> y == Sermons || y == NewsArticles
    {
      assert sources[0].focus == NewsArticles && sources[3].focus == Sermons;
      assert forall s :: s in sources ==> s.focus == Sermons || s.focus == NewsArticles;
    }
    TwoValues(r, Sermons, NewsArticles);
  }

  /** The format selector for the configured sources. */
  lemma ConfiguredFormats(sources: seq<Source>)
    requires sources == Sources
    ensures FacetsOf(sources).formats == [TextFormat]
  {
    var r := FacetsOf(sources).formats;
    forall y
      ensures y in r <==> y == TextFormat
    {
      assert sources[0].format == TextFormat;
      assert forall s :: s in sources ==> s.format == TextFormat;
    }
    IncreasingUnique(r, [TextFormat]);
  }
}
