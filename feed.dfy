/**
 * Feed ingestion (`load_items`): for every configured source, the fetched
 * body is parsed into entries, at most 50 of them are normalised into
 * items tagged with the source, and all items are merged and sorted newest
 * first. The HTTP fetch, the feed parser, the free-text date parser and the
 * clock are inputs of the model.
 */
module Feed {
  import opened Basics
  import opened Text
  import opened Dates
  import opened Order

  /** A configured feed source with its filter tags. */
  datatype Source = Source(name: string, home: string, feed: string, denom: string, focus: string, format: string)

  const Catholics := "Katolíci"
  const Protestants := "Protestanti"
  const NewsArticles := "Správy / články"
  const Sermons := "Kázne / výklad"
  const TextFormat := "Text"

  const TkkbsHome := "https://www.tkkbs.sk/"
  const LutheranHome := "https://www.lutheran.sk/"

  const TkkbsDomestic := Source("TK KBS – Domáce spravodajstvo", TkkbsHome,
    "https://www.tkkbs.sk/rss/domov", Catholics, NewsArticles, TextFormat)
  const TkkbsForeign := Source("TK KBS – Zahraničné spravodajstvo", TkkbsHome,
    "https://www.tkkbs.sk/rss/zahranicie", Catholics, NewsArticles, TextFormat)
  const LutheranNews := Source("lutheran.sk – Novinky", LutheranHome,
    "http://www.lutheran.sk/index.php/sk/novinky?format=feed&type=atom", Protestants, NewsArticles, TextFormat)
  const LutheranSermons := Source("lutheran.sk – Kázne", LutheranHome,
    "http://www.lutheran.sk/index.php/sk/kazne?format=feed&type=atom", Protestants, Sermons, TextFormat)

  /** The sources the dashboard is configured with. */
  const Sources: seq<Source> := [TkkbsDomestic, TkkbsForeign, LutheranNews, LutheranSermons]

  /** One entry as the feed parser returns it; a missing key is `None`. */
  datatype Entry = Entry(
    dates: DateFields,
    title: Option<string>,
    link: Option<string>,
    summary: Option<string>,
    description: Option<string>)

  /** A normalised feed item. */
  datatype Item = Item(
    source: string, home: string, denom: string, focus: string, format: string,
    title: string, link: string, summary: string, dt: DateTime)

  /** At most this many entries of each feed are taken. */
  const EntriesPerSource := 50

  /** The item carries the name, home page and tags of `s`. */
  predicate OwnedBy(it: Item, s: Source)
  {
    it.source == s.name && it.home == s.home && it.denom == s.denom
    && it.focus == s.focus && it.format == s.format
  }

  /** A falsy string (absent or empty) is replaced by `fallback`: Python's `v or fallback`. */
  function Or(v: Option<string>, fallback: string): (r: string)
    ensures v.Some? && v.value != "" ==> r == v.value
    ensures (v.None? || v.value == "") ==> r == fallback
  {
    if v.Some? && v.value != "" then v.value else fallback
  }

  /** One entry turned into an item of source `s`; `now` stands in when no date is found. */
  function Normalize(s: Source, e: Entry, parse: string -> Option<TextDate>, now: int): (it: Item)
    ensures OwnedBy(it, s)
    ensures e.title.None? ==> it.title == ""
    ensures e.title.Some? ==> it.title == Strip(e.title.value)
    ensures e.link.None? ==> it.link == ""
    ensures e.link.Some? ==> it.link == Strip(e.link.value)
    ensures e.summary.Some? && e.summary.value != "" ==> it.summary == Strip(e.summary.value)
    ensures (e.summary.None? || e.summary.value == "") && e.description.Some?
            ==> it.summary == Strip(e.description.value)
    ensures (e.summary.None? || e.summary.value == "") && e.description.None? ==> it.summary == ""
    ensures ParseDate(e.dates, parse).Some? ==> it.dt == ParseDate(e.dates, parse).value
    ensures ParseDate(e.dates, parse).None? ==> it.dt == DateTime(now, 0)
  {
    Item(s.name, s.home, s.denom, s.focus, s.format,
         TextField(e.title), TextField(e.link), SummaryField(e), Timestamp(e.dates, parse, now))
  }

  /** `(e.get(key) or "").strip()`. */
  function TextField(v: Option<string>): (r: string)
    ensures v.None? ==> r == ""
    ensures v.Some? ==> r == Strip(v.value)
  {
    Strip(Or(v, ""))
  }

  /** `(e.get("summary") or e.get("description") or "").strip()`: an empty summary falls back to the description. */
  function SummaryField(e: Entry): (r: string)
    ensures e.summary.Some? && e.summary.value != "" ==> r == Strip(e.summary.value)
    ensures (e.summary.None? || e.summary.value == "") && e.description.Some? ==> r == Strip(e.description.value)
    ensures (e.summary.None? || e.summary.value == "") && e.description.None? ==> r == ""
  {
    Strip(Or(e.summary, Or(e.description, "")))
  }

  /** `parse_dt(e) or datetime.now(timezone.utc)`. */
  function Timestamp(f: DateFields, parse: string -> Option<TextDate>, now: int): (dt: DateTime)
    ensures ParseDate(f, parse).Some? ==> dt == ParseDate(f, parse).value
    ensures ParseDate(f, parse).None? ==> dt == DateTime(now, 0)
  {
    match ParseDate(f, parse)
    case Some(d) => d
    case None => DateTime(now, 0)
  }

  /** Items are sorted by the instant of their timestamp. */
  function ItemKey(it: Item): int
  {
    it.dt.Instant()
  }

  /** `fp.entries[:50]`. */
  function Capped(entries: seq<Entry>): (r: seq<Entry>)
    ensures |r| <= EntriesPerSource && r <= entries
    ensures |entries| <= EntriesPerSource ==> r == entries
    ensures |entries| > EntriesPerSource ==> r == entries[..EntriesPerSource]
  {
    if |entries| <= EntriesPerSource then entries else entries[..EntriesPerSource]
  }

  function NormalizeAll(s: Source, es: seq<Entry>, parse: string -> Option<TextDate>, now: int): seq<Item>
  {
    seq(|es|, k requires 0 <= k < |es| => Normalize(s, es[k], parse, now))
  }

  lemma NormalizeAllStep(s: Source, es: seq<Entry>, j: nat, parse: string -> Option<TextDate>, now: int)
    requires j < |es|
    ensures NormalizeAll(s, es[..j + 1], parse, now) == NormalizeAll(s, es[..j], parse, now) + [Normalize(s, es[j], parse, now)]
  {
  }

  /**
   * A fetch that returned a non-empty body: Python's truthiness of
   * `bytes | None`, where `None` and `b""` are falsy (`if not raw: continue`).
   */
  predicate HasContent(raw: Option<Bytes>)
    ensures HasContent(raw) <==> raw != None && raw != Some([])
    ensures HasContent(raw) ==> |raw.value| >= 1
  {
    raw.Some? && raw.value != []
  }

  /** The items one source contributes, given what its fetch returned. */
  function SourceItems(s: Source, raw: Option<Bytes>, parseFeed: Bytes -> seq<Entry>,
                       parse: string -> Option<TextDate>, now: int): (items: seq<Item>)
    ensures !HasContent(raw) ==> items == []
    ensures |items| <= EntriesPerSource
  {
    if HasContent(raw) then NormalizeAll(s, Capped(parseFeed(raw.value)), parse, now) else []
  }

  /** The items each source contributes, one list per source. */
  function Chunks(sources: seq<Source>, raws: seq<Option<Bytes>>, parseFeed: Bytes -> seq<Entry>,
                  parse: string -> Option<TextDate>, now: int): (chunks: seq<seq<Item>>)
    requires |raws| == |sources|
    ensures |chunks| == |sources|
  {
    seq(|sources|, i requires 0 <= i < |sources| => SourceItems(sources[i], raws[i], parseFeed, parse, now))
  }

  /** The items of all sources, in source order, before sorting. */
  function Collected(sources: seq<Source>, raws: seq<Option<Bytes>>, parseFeed: Bytes -> seq<Entry>,
                     parse: string -> Option<TextDate>, now: int): seq<Item>
    requires |raws| == |sources|
  {
    Concat(Chunks(sources, raws, parseFeed, parse, now))
  }

  /** `load_items`, with the fetch results of the sources given in `raws`, one per source. */
  method LoadItems(sources: seq<Source>, raws: seq<Option<Bytes>>, parseFeed: Bytes -> seq<Entry>,
                   parse: string -> Option<TextDate>, now: int) returns (items: seq<Item>)
    requires |raws| == |sources|
    ensures items == SortDesc(Collected(sources, raws, parseFeed, parse, now), ItemKey)
    ensures NonIncreasing(items, ItemKey)
    ensures multiset(items) == multiset(Collected(sources, raws, parseFeed, parse, now))
  {
    ghost var chunks := Chunks(sources, raws, parseFeed, parse, now);
    items := [];
    for i := 0 to |sources|
      invariant items == Concat(chunks[..i])
    {
      var s, raw := sources[i], raws[i];
      ConcatStep(chunks, i);
      if !HasContent(raw) {
        assert chunks[i] == [];
        continue;
      }
      var entries := Capped(parseFeed(raw.value));
      ghost var before := items;
      for j := 0 to |entries|
        invariant items == before + NormalizeAll(s, entries[..j], parse, now)
      {
        var e := entries[j];
        var dt := Timestamp(e.dates, parse, now);
        var title := TextField(e.title);
        var link := TextField(e.link);
        var summary := SummaryField(e);
        NormalizeAllStep(s, entries, j, parse, now);
        items := items + [Item(s.name, s.home, s.denom, s.focus, s.format, title, link, summary, dt)];
      }
      assert entries[..|entries|] == entries;
      assert chunks[i] == NormalizeAll(s, entries, parse, now);
    }
    assert chunks[..|sources|] == chunks;
    items := SortDesc(items, ItemKey);
  }

  /** Each source contributes at most 50 items, so there are at most 50 per source in all. */
  lemma CollectedBound(sources: seq<Source>, raws: seq<Option<Bytes>>,
                       parseFeed: Bytes -> seq<Entry>, parse: string -> Option<TextDate>, now: int)
    requires |raws| == |sources|
    ensures |Collected(sources, raws, parseFeed, parse, now)| <= EntriesPerSource * |sources|
  {
    ConcatBound(Chunks(sources, raws, parseFeed, parse, now), EntriesPerSource);
  }

  /**
   * A source whose fetch returned nothing (or an empty body) contributes
   * nothing, and the others contribute exactly what they would without it.
   */
  lemma SkippedSourceContributesNothing(sources: seq<Source>, raws: seq<Option<Bytes>>, i: int,
                                        parseFeed: Bytes -> seq<Entry>, parse: string -> Option<TextDate>, now: int)
    requires |raws| == |sources| && 0 <= i < |sources| && !HasContent(raws[i])
    ensures Collected(sources, raws, parseFeed, parse, now)
         == Collected(sources[..i] + sources[i + 1..], raws[..i] + raws[i + 1..], parseFeed, parse, now)
  {
    var c := Chunks(sources, raws, parseFeed, parse, now);
    ChunksWithout(sources, raws, i, parseFeed, parse, now);
    ConcatSkipEmpty(c, i);
  }

  /** The chunks without source `i` are the chunks with chunk `i` left out. */
  lemma ChunksWithout(sources: seq<Source>, raws: seq<Option<Bytes>>, i: int,
                      parseFeed: Bytes -> seq<Entry>, parse: string -> Option<TextDate>, now: int)
    requires |raws| == |sources| && 0 <= i < |sources|
    ensures var c := Chunks(sources, raws, parseFeed, parse, now);
      Chunks(sources[..i] + sources[i + 1..], raws[..i] + raws[i + 1..], parseFeed, parse, now) == c[..i] + c[i + 1..]
  {
    var c := Chunks(sources, raws, parseFeed, parse, now);
    var ss, rs := sources[..i] + sources[i + 1..], raws[..i] + raws[i + 1..];
    var d := Chunks(ss, rs, parseFeed, parse, now);
    forall k | 0 <= k < |d|
      ensures d[k] == (c[..i] + c[i + 1..])[k]
    {
      var k' := if k < i then k else k + 1;
      assert ss[k] == sources[k'] && rs[k] == raws[k'];
    }
  }

  /**
   * Every collected item belongs to a source whose fetch returned content
   * and carries that source's name and tags.
   */
  lemma CollectedOwned(sources: seq<Source>, raws: seq<Option<Bytes>>,
                       parseFeed: Bytes -> seq<Entry>, parse: string -> Option<TextDate>, now: int, it: Item)
    requires |raws| == |sources| && it in Collected(sources, raws, parseFeed, parse, now)
    ensures exists i :: 0 <= i < |sources| && HasContent(raws[i]) && OwnedBy(it, sources[i])
  {
    var c := Chunks(sources, raws, parseFeed, parse, now);
    var i, k := ConcatMember(c, it);
    assert c[i] == SourceItems(sources[i], raws[i], parseFeed, parse, now);
  }

  /**
   * A source whose fetch returned content contributes one item per entry of
   * its first 50, in entry order: the normalised entry.
   */
  lemma SourceContribution(s: Source, raw: Option<Bytes>, parseFeed: Bytes -> seq<Entry>,
                           parse: string -> Option<TextDate>, now: int)
    requires HasContent(raw)
    ensures var es := parseFeed(raw.value);
      var items := SourceItems(s, raw, parseFeed, parse, now);
      && |items| == (if |es| <= EntriesPerSource then |es| else EntriesPerSource)
      && forall k :: 0 <= k < |items| ==> items[k] == Normalize(s, es[k], parse, now)
  {
  }

  /**
   * Every collected item is the normalisation of one of the first 50 entries
   * of a source whose fetch returned content, so its timestamp is that
   * entry's parsed date, or `now` when the entry has none.
   */
  lemma LoadedTimestamp(sources: seq<Source>, raws: seq<Option<Bytes>>,
                        parseFeed: Bytes -> seq<Entry>, parse: string -> Option<TextDate>, now: int, it: Item)
    requires |raws| == |sources| && it in Collected(sources, raws, parseFeed, parse, now)
    ensures exists i, e ::
      && 0 <= i < |sources| && HasContent(raws[i]) && e in Capped(parseFeed(raws[i].value))
      && it == Normalize(sources[i], e, parse, now)
      && it.dt == (if ParseDate(e.dates, parse).Some? then ParseDate(e.dates, parse).value else DateTime(now, 0))
  {
    var c := Chunks(sources, raws, parseFeed, parse, now);
    var i, k := ConcatMember(c, it);
    assert c[i] == SourceItems(sources[i], raws[i], parseFeed, parse, now);
    var e := Capped(parseFeed(raws[i].value))[k];
    assert it == Normalize(sources[i], e, parse, now);
  }
}
