# RSS normalizer: entry normalisation

A model of the `/feed` endpoint of the RSS normalizer service (`main.py`)
from the moment the feed parser has returned: the malformed-feed gate, the
loop over the parsed entries with its title/link inclusion gate, the field
fallback chains for author, publication date and content, the collection of
categories from the entry's tags, and the assembly of the item list.

The parser's output is the input of the model (`ParsedFeed`: the `bozo`
flag and the entries). Every optional entry field is an `Option<string>`
and, as with Python's `or` and `not`, an empty string counts as absent
(`Present`). The library's date conversion inside `iso_utc` is a function
parameter (`DateConverter`); only the absence branch of `iso_utc` is
interpreted. The endpoint's HTTP error becomes the `Failure` variant of a
`Result`, carrying the status 502 and the detail text.

Files:

- `wrappers.dfy` — `Option` and `Result`.
- `normalizer.dfy` — the entry and item records, the fallback functions,
  the specification function `Normalize`, the method `ParseFeed` with the
  entry loop and `CollectCategories` with the tag loop (the nested loop of
  the source, written as its own method), and the lemmas about them.

`main.py` does no dialect detection, HTML-to-text sanitising, ten-item cap
or feed-level link resolution, and the model has none of them. A feed flagged
malformed that has no entries is a 502 error (main.py:30-31).

## Model

| member | source | states |
|---|---|---|
| Normalizer.IsoUtc | main.py:10-12 | an absent or empty date struct converts to `None` |
| Normalizer.Author | main.py:42-46 | the author is `author` if non-empty, else `dc_creator` if non-empty, else "Unknown"; it is never empty |
| Normalizer.PublishedAt | main.py:48-51 | the converted `published_parsed` when that is truthy, otherwise the converted `updated_parsed`; an absent `published_parsed` always falls back, and both absent give `None` |
| Normalizer.SummaryHtml | main.py:53 | the summary when the entry has one, otherwise "" |
| Normalizer.ContentHtml | main.py:53-60 | the first content element's value when there is one and it is non-empty, otherwise the summary (or ""); the result is empty only when there is no summary |
| Normalizer.Categories | main.py:62-66 | never more categories than tags, and no category is empty |
| Normalizer.CollectCategories | main.py:62-66 | the tag loop appends exactly the non-empty terms, in order |
| Normalizer.CategoriesFollowTags | main.py:62-66 | category k is the term of the k-th tag that carries a non-empty term: the tag positions ascend and every such tag has one, so tag order is kept, missing or empty terms are dropped and duplicates are kept |
| Normalizer.CategoriesMembership | main.py:62-66 | a string is a category exactly when it is non-empty and some tag carries it as its term |
| Normalizer.CategoriesKeepAll | main.py:62-66 | when every tag has a term, the categories are those terms in tag order, duplicates included |
| Normalizer.ExcludedEntryHasNoItem | main.py:36-40 | an entry without a non-empty title or link (the gate `Included`) is the source of no item, so there are fewer items than entries |
| Normalizer.ToItem | main.py:68-76 | the item record of an entry that passed the gate: title and url copied unchanged and non-empty, a non-empty author, the raw summary, the chosen content and non-empty categories |
| Normalizer.NormalizeEntries | main.py:33-40 | no more items than entries, and every item has a non-empty title and url |
| Normalizer.Normalize | main.py:30-31 | the result is an error (502, "Invalid or unreadable feed") exactly when the feed is flagged malformed and has no entries; a flagged feed with entries yields the same items as an unflagged one |
| Normalizer.ParseFeed | main.py:30-76 | the entry loop returns what `Normalize` specifies for the parsed feed |
| Normalizer.ItemsFollowEntries | main.py:33-76 | item k is the record of the k-th entry that passes the title/link gate: the source positions ascend, every passing entry has one, so the item count equals the number of passing entries and relative order is kept |
| Normalizer.ItemFields | main.py:68-76 | each item's title and url are its entry's title and link unchanged, and its author, date, summary, content and categories are those of the fallback functions |

## Left out

- The FastAPI application and the route decoration: HTTP plumbing.
- `feedparser.parse(url)` and the 502 raised when it throws: network fetch and XML parsing inside a foreign library; the model starts from its output.
- The date conversion `_mktime_tz` and `fromtimestamp(...).isoformat()`: library time arithmetic, taken as the parameter `convert`.
- Normalizer.IsoUtc: only the absence branch is specified. A date struct whose timestamp is 0 makes `iso_utc` return the integer 0 rather than a string; the model folds that into the converter's `None` (both are falsy for the `or` in the date fallback), so a 0 reaching the output is not represented.
- `fetched_at`: it reads the wall clock.
- `feed_url`: an echo of the request parameter.
- Normalizer.SummaryHtml: an entry whose `summary` key is present but holds `None` gives `summary_html` = `None` in the code, and then `content_html` = `None` too when there is no content value (Normalizer.ContentHtml); the model does not distinguish a `None` value from a missing key and yields "" for both.
- Values of other types than strings in entry fields are not modelled.
