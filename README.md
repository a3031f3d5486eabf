# Bible-sources feed dashboard: the item pipeline

`app.py` is a Streamlit page, "Mapa biblických zdrojov". It aggregates the RSS/Atom feeds of four Slovak church sources: two TK KBS news feeds (Katolíci) and the lutheran.sk news and sermon feeds (Protestanti). The page does the following:

- It downloads each feed.
- It turns up to 50 entries per feed into items tagged with the source's denomination, focus and format.
- It gives each item a timestamp through a date fallback chain.
- It sorts all items newest first.
- It lets the viewer filter them by the three tags, a window of N days and a keyword.
- It tallies how many filtered items each source contributed and lists the sources by that count.
- It renders at most 80 cards, each with its summary cut to 350 characters.

This project models that pipeline in Dafny and proves what it promises.

| file | module | what it holds |
|---|---|---|
| `basics.dfy` | `Basics` | `Option`, bytes, list concatenation |
| `text.dfy` | `Text` | Python's `str.strip`, `str.lower`, substring `in` and string `<`, plus `sorted(set(...))` |
| `order.dfy` | `Order` | the stable descending sort that `list.sort(reverse=True)` and `sorted(..., reverse=True)` perform |
| `dates.dfy` | `Dates` | `parse_dt`: the structured-time and free-text date chain and the calendar |
| `feed.dfy` | `Feed` | the configured sources, entries, items and `load_items` |
| `dashboard.dfy` | `Dashboard` | the filter loop, the activity tally and its ranking, summary cutting, the card cap and the facet lists |

The page itself is imperative: `load_items` grows a list in nested loops, the filter loop appends survivors after `continue` guards, and the tally updates a dictionary. Each of these is a `method` with a loop.

- `Feed.LoadItems`, `Dashboard.FilterItems` and `Dashboard.TallyBySource` are proved against specification functions (`Feed.Collected`, `Dashboard.Selected`, `Dashboard.Count` and `Dashboard.FirstSeen`). The properties are proved about those functions.
- The pure parts are functions. These are the date chain, the summary cut and the facet lists.
- Python semantics are written out:
  - A dictionary keeps its keys in insertion order. It is modelled as an order list plus a map.
  - `x or ""` replaces falsy (absent or empty) values.
  - `datetime(*t[:6])` raises on out-of-range fields. A raise sends the chain on to the next field.
  - Aware datetimes compare by their UTC instant.
  - `sort` is stable.

Timestamps are whole seconds. A `DateTime` is a wall-clock reading plus the zone offset, and its instant is the wall reading minus the offset.

## Model

| member | source | states |
|---|---|---|
| `Dates.FromStruct` | app.py:60-65 | A structured time yields a datetime exactly when it is present and `datetime(...)` accepts its fields. That datetime is in UTC, at the instant the fields denote. |
| `Dates.FromText` | app.py:66-72 | A free-text field yields a datetime exactly when it is present, non-empty and accepted by the date parser. The wall reading is the parser's. The zone is the parser's when the text named one, and UTC otherwise. |
| `Dates.IsValid` | app.py:63 | These are the fields `datetime(...)` accepts. February 29 passes only in leap years. A leap second (second 60) is refused. Every time of day on days 1-28 of any month of years 1-9999 passes. |
| `Dates.EpochSeconds` | app.py:63 | The instant of a valid time tuple is whole days from 1970-01-01 plus the seconds into the day. Dividing by 86400 gives the day number and the remainder is the time of day. |
| `Dates.EpochOrigin` | app.py:63 | 1970-01-01 is day 0, and its midnight UTC is instant 0. |
| `Dates.MarchYearLength` | app.py:63 | The year from March of y to the end of February of y + 1 has 366 days exactly when y + 1 is a leap year, and 365 otherwise. |
| `Dates.YearOfEraLength` | app.py:63 | Within a 400-year era, a year adds 365 days plus its leap day. |
| `Dates.MonthOffsetStep` | app.py:63 | Within a March-based year, each month starts exactly one month length after the previous one. |
| `Dates.NextDay` | app.py:63 | The calendar day after any valid date has the next day number. This holds at the end of a month, at the end of a year and on leap days. With `EpochOrigin` it makes the day number the count of days from 1970-01-01. |
| `Dates.DaysInMonth` | app.py:63 | Months have 28 to 31 days. February has 29 exactly in leap years. |
| `Dates.ParseDate` | app.py:58-73 | There are four candidates: structured published, structured updated, text published and text updated. The result is None exactly when all four fail. Otherwise the first candidate that succeeds wins, and the result is always one of the candidates. |
| `Dates.StructuredBeatsText` | app.py:60-65 | When a structured time is usable, the free-text fields cannot change the result, and the result is in UTC. |
| `Dates.PublishedBeatsUpdated` | app.py:60-63 | A valid structured published time is the result, in UTC, whatever the updated time says. |
| `Dates.TextDateZone` | app.py:66-70 | With no usable structured time, a parsed published text without a zone is read as UTC. One with a zone keeps it. |
| `Text.Strip` | app.py:85-87 | `strip()` never lengthens a string. |
| `Text.StripSpec` | app.py:85-87 | The stripped string neither starts nor ends with whitespace. The original is whitespace, then the result, then whitespace. |
| `Text.StripIdempotent` | app.py:85-87 | Stripping twice is stripping once. |
| `Text.Lower` | app.py:140-141 | `lower()` keeps the length and lowers each character on its own. |
| `Text.LowerChar` | app.py:140-141 | Lowering a character adds 32 to an ASCII capital. It keeps whitespace whitespace. Lowering again changes nothing. |
| `Text.LowerIdempotent` | app.py:141 | Lowering twice is lowering once. |
| `Text.Find` | app.py:141 | The search answers true exactly when the needle occurs somewhere in the haystack (Python's `in`). |
| `Text.BelowIrreflexive` | app.py:109-111 | No string sorts before itself. |
| `Text.BelowTransitive` | app.py:109-111 | String order is transitive. |
| `Text.BelowTotal` | app.py:109-111 | Of two different strings, one sorts before the other. |
| `Text.BelowAsymmetric` | app.py:109-111 | Two strings never sort before each other. |
| `Text.SortedDistinct` | app.py:109-111 | `sorted(set(values))` is strictly increasing and holds exactly the values. |
| `Text.IncreasingUnique` | app.py:109-111 | A strictly increasing list is fixed by its elements, so the facet list has exactly one possible value. |
| `Order.SortDesc` | app.py:99 | The descending sort yields keys that never increase, and a permutation of its input. |
| `Order.SortDescStable` | app.py:99 | The sort is stable: the elements with any one key keep their relative order. |
| `Feed.Or` | app.py:85-87 | `v or fallback` is `v` when `v` is present and non-empty, and the fallback otherwise. |
| `Feed.TextField` | app.py:85-86 | The title and link are the stripped entry value, or "" when absent. |
| `Feed.SummaryField` | app.py:87 | The summary is the stripped `summary` when it is non-empty. Otherwise it is the stripped `description`, or "" when both are missing. |
| `Feed.Timestamp` | app.py:84 | An item's time is the parsed date, or the current instant in UTC when no date is found. |
| `Feed.Normalize` | app.py:84-98 | An item carries the owning source's name, home and tags. It has the stripped title, link and summary with their fallbacks, and the date or `now`. |
| `Feed.HasContent` | app.py:80-81 | A fetch result counts as content exactly when it is neither `None` nor the empty body, which is Python's truthiness of an optional byte string. |
| `Feed.Capped` | app.py:83 | `entries[:50]` is all the entries when there are at most 50, and exactly the first 50 otherwise. |
| `Feed.SourceItems` | app.py:79-98 | A source whose fetch gave nothing or an empty body contributes no items. No source contributes more than 50. |
| `Feed.SourceContribution` | app.py:82-98 | A source whose fetch returned content contributes min(50, number of entries) items. Item k is the normalised entry k, in entry order. |
| `Feed.LoadItems` | app.py:76-100 | The loop's result is the sort of the items collected source by source. It is ordered newest first and is a permutation of the collected items. |
| `Feed.CollectedBound` | app.py:78-83 | At most 50 items per configured source are collected. |
| `Feed.SkippedSourceContributesNothing` | app.py:79-81 | A source without content contributes nothing. The others contribute exactly what they would if it were not configured. |
| `Feed.CollectedOwned` | app.py:78-98 | Every collected item belongs to a source whose fetch returned content, and it carries that source's name and tags. |
| `Feed.LoadedTimestamp` | app.py:78-98 | Every collected item is the normalisation of one of the first 50 entries of a source that returned content. Its timestamp is that entry's parsed date, or `now` when the entry has none. |
| `Dashboard.Cutoff` | app.py:128 | The cutoff lies exactly `days` days before `now`. |
| `Dashboard.KeywordMatches` | app.py:139-142 | A keyword that is all whitespace, including the empty keyword, matches every item. Any other keyword matches exactly when its lowered, stripped form occurs in the lowered `title + " " + summary`. |
| `Dashboard.Keep` | app.py:131-142 | An item passes exactly when all of these hold: its denomination, focus and format are each selected; its instant is at or after the cutoff; and the keyword is blank or occurs as the keyword test requires. |
| `Dashboard.FilterItems` | app.py:128-143 | The filter loop returns exactly the items that pass every condition, in their order. |
| `Dashboard.SelectedIsSubsequence` | app.py:129-143 | The filtered list is an order-preserving subsequence of the items. |
| `Dashboard.SelectedSound` | app.py:130-143 | Each kept item passes every condition. Its tags are in the selected sets, its time is at or after the cutoff, and the keyword test holds. |
| `Dashboard.SelectedComplete` | app.py:130-143 | An item that passes every condition is kept as often as it occurs. An item that fails one is not kept at all. |
| `Dashboard.BlankLower` | app.py:139-141 | A keyword is blank exactly when its lowered form is blank. |
| `Dashboard.StripEmpty` | app.py:139 | `kw.strip()` is empty exactly when the keyword is all whitespace. |
| `Dashboard.KeywordCaseInsensitive` | app.py:139-142 | The keyword test gives the same answer for a keyword and its lowered form. |
| `Dashboard.WiderWindowKeepsMore` | app.py:128-138 | An item kept with a window of N days is kept with any wider window. |
| `Dashboard.Count` | app.py:146-148 | A source's count never exceeds the number of items. |
| `Dashboard.FirstSeen` | app.py:146-148 | The dictionary's keys never repeat, and they are exactly the sources with at least one item. |
| `Dashboard.TallyBySource` | app.py:146-148 | The keys are exactly the sources that appear, in first-seen order. Each count is that source's number of filtered items, and the counts sum to the number of filtered items. |
| `Dashboard.TotalIsLength` | app.py:146-148 | A tally holding each source's count sums to the length of the list. |
| `Dashboard.Ranking` | app.py:156 | The activity list has counts that never increase and holds exactly the dictionary's entries. |
| `Dashboard.RankingStable` | app.py:156 | Sources with equal counts keep their first-seen order. |
| `Dashboard.Snippet` | app.py:169 | A summary of up to 350 characters is shown unchanged. A longer one becomes its first 350 characters followed by "…". |
| `Dashboard.SnippetIdempotent` | app.py:169 | Cutting an already cut summary changes nothing. |
| `Dashboard.Shown` | app.py:164 | At most 80 items are rendered: the first 80, or all of them when there are fewer. |
| `Dashboard.CardOf` | app.py:164-171 | The summary line appears exactly when the summary is non-empty. It then is the cut summary (`Snippet`), at most 351 characters. The card carries the item's title, link, time, denomination, focus, source and home page. |
| `Dashboard.Cards` | app.py:164-171 | There are exactly min(80, number of filtered items) cards. Card k is the card of filtered item k. |
| `Dashboard.FacetsOf` | app.py:109-111 | Each selector list is strictly increasing and holds exactly the distinct tag values of the sources. |
| `Dashboard.Tags` | app.py:109-111 | The tag values listed are exactly the tags of the sources. |
| `Dashboard.DefaultSelectionKeepsTags` | app.py:113-115 | Every selector starts with all values selected, so no item of a configured source fails the tag tests under the defaults. |
| `Dashboard.TwoValues` | app.py:109-111 | A facet with exactly two values is listed as those two in order. |
| `Dashboard.ConfiguredDenominations` | app.py:10-46 | For the configured sources the denomination selector lists Katolíci, then Protestanti. |
| `Dashboard.ConfiguredFocuses` | app.py:10-46 | For the configured sources the focus selector lists "Kázne / výklad", then "Správy / články". |
| `Dashboard.ConfiguredFormats` | app.py:10-46 | For the configured sources the format selector lists only "Text". |

## Left out

- `safe_get` (the HTTP GET with timeout and header, swallowing every error) is I/O. Its result for each source is an input of `Feed.LoadItems`, an optional byte string.
- `feedparser.parse` and `dateutil`'s `parser.parse` are foreign parsers. Both are function parameters.
  - The feed parser maps a body to entries.
  - The date parser maps text to an optional wall reading and zone.
  - An exception from the date parser is its `None` result.
- `Feed.LoadItems` reads the clock once, as one `now` parameter. Python calls `datetime.now` again for every undated entry, so the model does not capture undated items getting slightly different times.
- `Dashboard.FilterItems` reads the clock once, as its own `now` parameter.
- Sub-second precision of timestamps is not modelled. Instants are whole seconds.
- `@st.cache_data(ttl=300)`: the memoisation of `load_items` between page reruns is not modelled.
- Every `st.*` widget and rendering call is I/O and is not modelled. This includes the page layout, the multiselects, the text input and the slider. The slider's 1-30 range is not imposed on `Criteria.days`. The formatted strings are not modelled either.
- The conversion of card times to local time (`astimezone`) is left out. It is display only, so `Card` keeps the UTC-comparable `DateTime`.
- The sidebar listing of sources and the empty-tally info box are display only.
- `Text.Lower`: lowers ASCII, Latin-1 and Latin Extended-A, which covers Slovak text. It does not model the rest of Unicode case mapping or the two-character result of lowering U+0130.
- `Order.SortDesc`: an insertion sort, specified by its result (non-increasing, a permutation, stable). Python's Timsort yields the same list, because a stable sort's result is unique, but Timsort's steps are not modelled.
- Feedparser's aliasing of `summary` and `description` is not modelled. The two are independent optional fields of `Entry`.
- Image extraction and `og:image` scraping are not in `app.py`, so they are not part of this model.
- Timestamps are not converted to UTC. A parsed free-text time without a zone is tagged UTC, and one that names a zone keeps that zone (`DateTime.offset`). Comparison, sorting and the cutoff test all go by the instant.
