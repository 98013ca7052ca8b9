/**
 * The per-entry normalisation of the feed endpoint in main.py: the
 * malformed-feed gate, the entry loop with its inclusion gate, the field
 * fallback chains and the category collection.
 *
 * The feed has already been parsed when this model starts: its input is the
 * parser's `bozo` flag and its list of entries.  Every optional entry field is
 * an `Option`, and, as with Python's `or` and `not`, an empty string counts as
 * absent.
 */
module Normalizer {
  import opened Wrappers

  /** A parsed date as the feed parser hands it over: the fields of a time tuple. */
  type DateStruct = seq<int>

  /**
   * The library conversion of a non-empty date struct to an ISO-8601 UTC
   * string.  `None` stands for a falsy result of that conversion.
   */
  type DateConverter = DateStruct -> Option<string>

  /** One parsed feed entry, restricted to the keys the endpoint reads. */
  datatype Entry = Entry(
    title: Option<string>,
    link: Option<string>,
    author: Option<string>,
    dcCreator: Option<string>,
    publishedParsed: Option<DateStruct>,
    updatedParsed: Option<DateStruct>,
    summary: Option<string>,
    content: seq<Option<string>>,  // the `value` of each `content` element
    tags: seq<Option<string>>)     // the `term` of each tag

  /** What the feed parser returns: the malformed-document flag and the entries. */
  datatype ParsedFeed = ParsedFeed(bozo: bool, entries: seq<Entry>)

  /** One output item record. */
  datatype Item = Item(
    title: string,
    url: string,
    author: string,
    publishedAt: Option<string>,
    summaryHtml: string,
    contentHtml: string,
    categories: seq<string>)

  /** The HTTP error the endpoint raises for an unreadable feed. */
  datatype FeedError = FeedError(status: int, detail: string)

  const UnknownAuthor: string := "Unknown"
  const InvalidFeed: FeedError := FeedError(502, "Invalid or unreadable feed")

  /** Python truthiness of an optional string: present and non-empty. */
  predicate Present(o: Option<string>) {
    o.Some? && o.value != ""
  }

  /** Python's `a or b` on optional strings. */
  function Or(a: Option<string>, b: Option<string>): Option<string> {
    if Present(a) then a else b
  }

  /** Python's `d.get(key, "")` when the key maps to an optional string. */
  function OrEmpty(o: Option<string>): string {
    if o.Some? then o.value else ""
  }

  /** Python truthiness of an optional date struct. */
  predicate DatePresent(d: Option<DateStruct>) {
    d.Some? && d.value != []
  }

  /**
   * `iso_utc`: an absent or empty date struct yields `None`; any other is
   * handed to the library conversion.
   */
  function IsoUtc(convert: DateConverter, d: Option<DateStruct>): (r: Option<string>)
    ensures !DatePresent(d) ==> r == None
  {
    if !DatePresent(d) then None else convert(d.value)
  }

  /** The author fallback chain `author` -> `dc_creator` -> "Unknown". */
  function Author(e: Entry): (r: string)
    ensures r != ""
    ensures Present(e.author) ==> r == e.author.value
    ensures !Present(e.author) && Present(e.dcCreator) ==> r == e.dcCreator.value
    ensures !Present(e.author) && !Present(e.dcCreator) ==> r == UnknownAuthor
  {
    Or(Or(e.author, e.dcCreator), Some(UnknownAuthor)).value
  }

  /** The publication date: the converted `published_parsed`, else the converted `updated_parsed`. */
  function PublishedAt(convert: DateConverter, e: Entry): (r: Option<string>)
    ensures Present(IsoUtc(convert, e.publishedParsed)) ==> r == IsoUtc(convert, e.publishedParsed)
    ensures !Present(IsoUtc(convert, e.publishedParsed)) ==> r == IsoUtc(convert, e.updatedParsed)
    ensures !DatePresent(e.publishedParsed) ==> r == IsoUtc(convert, e.updatedParsed)
    ensures !DatePresent(e.publishedParsed) && !DatePresent(e.updatedParsed) ==> r == None
  {
    Or(IsoUtc(convert, e.publishedParsed), IsoUtc(convert, e.updatedParsed))
  }

  /** The raw summary, or "" when there is none. */
  function SummaryHtml(e: Entry): (r: string)
    ensures e.summary.Some? ==> r == e.summary.value
    ensures e.summary.None? ==> r == ""
  {
    OrEmpty(e.summary)
  }

  /** The content fallback: the first content element's value, else the summary. */
  function ContentHtml(e: Entry): (r: string)
    ensures |e.content| > 0 && Present(e.content[0]) ==> r == e.content[0].value
    ensures !(|e.content| > 0 && Present(e.content[0])) ==> r == SummaryHtml(e)
    ensures r == "" ==> !Present(e.summary)
  {
    var first := if |e.content| > 0 then OrEmpty(e.content[0]) else "";
    if first != "" then first else SummaryHtml(e)
  }

  /** The terms of the tags, in order, without the missing or empty ones. */
  function Categories(tags: seq<Option<string>>): (r: seq<string>)
    ensures |r| <= |tags|
    ensures forall k :: 0 <= k < |r| ==> r[k] != ""
  {
    if tags == [] then []
    else (if Present(tags[0]) then [tags[0].value] else []) + Categories(tags[1..])
  }

  /** The inclusion gate: both a title and a link. */
  predicate Included(e: Entry) {
    Present(e.title) && Present(e.link)
  }

  /** The item record built from an entry that passed the gate. */
  function ToItem(convert: DateConverter, e: Entry): (it: Item)
    requires Included(e)
    ensures it.title == e.title.value && it.url == e.link.value
    ensures it.title != "" && it.url != "" && it.author != ""
    ensures it.summaryHtml == SummaryHtml(e) && it.contentHtml == ContentHtml(e)
    ensures forall k :: 0 <= k < |it.categories| ==> it.categories[k] != ""
  {
    Item(e.title.value, e.link.value, Author(e), PublishedAt(convert, e),
         SummaryHtml(e), ContentHtml(e), Categories(e.tags))
  }

  /** The items of a list of entries: one per entry that passes the gate. */
  function NormalizeEntries(convert: DateConverter, entries: seq<Entry>): (items: seq<Item>)
    ensures |items| <= |entries|
    ensures forall k :: 0 <= k < |items| ==> items[k].title != "" && items[k].url != ""
  {
    if entries == [] then []
    else (if Included(entries[0]) then [ToItem(convert, entries[0])] else [])
         + NormalizeEntries(convert, entries[1..])
  }

  /** The endpoint's result for a parsed feed. */
  function Normalize(convert: DateConverter, feed: ParsedFeed): (r: Result<seq<Item>, FeedError>)
    ensures r.Failure? <==> feed.bozo && |feed.entries| == 0
    ensures r.Failure? ==> r.error == InvalidFeed
    ensures r.Success? ==> r.value == NormalizeEntries(convert, feed.entries)
  {
    if feed.bozo && |feed.entries| == 0 then Failure(InvalidFeed)
    else Success(NormalizeEntries(convert, feed.entries))
  }

  /** The positions of the entries that pass the gate, in ascending order. */
  ghost function KeptIndices(entries: seq<Entry>): seq<nat>
  {
    if entries == [] then []
    else KeptIndices(entries[..|entries| - 1])
         + (if Included(entries[|entries| - 1]) then [|entries| - 1] else [])
  }

  /** The positions of the tags that carry a non-empty term, in ascending order. */
  ghost function TermIndices(tags: seq<Option<string>>): seq<nat>
  {
    if tags == [] then []
    else TermIndices(tags[..|tags| - 1])
         + (if Present(tags[|tags| - 1]) then [|tags| - 1] else [])
  }

  /** `parse_feed` after the parse: the malformed-feed gate and the entry loop. */
  method ParseFeed(convert: DateConverter, feed: ParsedFeed) returns (r: Result<seq<Item>, FeedError>)
    ensures r == Normalize(convert, feed)
  {
    if feed.bozo && |feed.entries| == 0 {
      return Failure(InvalidFeed);
    }
    var items: seq<Item> := [];
    for i := 0 to |feed.entries|
      invariant items == NormalizeEntries(convert, feed.entries[..i])
    {
      var entry := feed.entries[i];
      NormalizeEntriesAppend(convert, feed.entries[..i], [entry]);
      assert feed.entries[..i + 1] == feed.entries[..i] + [entry];
      var title, link := entry.title, entry.link;
      if !Present(title) || !Present(link) {
        continue;
      }
      var author := Author(entry);
      var published := PublishedAt(convert, entry);
      var summaryHtml := OrEmpty(entry.summary);
      var contentHtml := "";
      if |entry.content| > 0 {
        contentHtml := OrEmpty(entry.content[0]);
      }
      if contentHtml == "" {
        contentHtml := summaryHtml;
      }
      assert contentHtml == ContentHtml(entry);
      var categories := CollectCategories(entry.tags);
      items := items + [Item(title.value, link.value, author, published, summaryHtml, contentHtml, categories)];
    }
    assert feed.entries[..|feed.entries|] == feed.entries;
    r := Success(items);
  }

  /** The categories loop of `parse_feed`: the terms of the tags, appended one by one. */
  method CollectCategories(tags: seq<Option<string>>) returns (categories: seq<string>)
    ensures categories == Categories(tags)
  {
    categories := [];
    for j := 0 to |tags|
      invariant categories == Categories(tags[..j])
    {
      var term := tags[j];
      CategoriesAppend(tags[..j], [term]);
      assert tags[..j + 1] == tags[..j] + [term];
      if Present(term) {
        categories := categories + [term.value];
      }
    }
    assert tags[..|tags|] == tags;
  }

  /** Category collection distributes over concatenation of tag lists. */
  lemma {:induction false} CategoriesAppend(a: seq<Option<string>>, b: seq<Option<string>>)
    ensures Categories(a + b) == Categories(a) + Categories(b)
  {
    if a == [] {
      assert a + b == b;
    } else {
      assert (a + b)[1..] == a[1..] + b;
      CategoriesAppend(a[1..], b);
    }
  }

  /** A string is a category exactly when some tag carries it as a non-empty term. */
  lemma {:induction false} CategoriesMembership(tags: seq<Option<string>>, t: string)
    ensures t in Categories(tags) <==> t != "" && Some(t) in tags
  {
    if tags != [] {
      CategoriesMembership(tags[1..], t);
      assert tags == [tags[0]] + tags[1..];
    }
  }

  /**
   * The categories are the terms of the tags that carry one, in tag order:
   * category k is the term of tag TermIndices(tags)[k], the indices ascend, and
   * every tag with a non-empty term has its index there, so duplicates are kept.
   */
  lemma {:induction false} CategoriesFollowTags(tags: seq<Option<string>>)
    ensures |Categories(tags)| == |TermIndices(tags)|
    ensures forall k :: 0 <= k < |TermIndices(tags)| ==>
      TermIndices(tags)[k] < |tags| && Present(tags[TermIndices(tags)[k]]) &&
      tags[TermIndices(tags)[k]] == Some(Categories(tags)[k])
    ensures forall k, l :: 0 <= k < l < |TermIndices(tags)| ==> TermIndices(tags)[k] < TermIndices(tags)[l]
    ensures forall i :: 0 <= i < |tags| && Present(tags[i]) ==> i in TermIndices(tags)
  {
    if tags != [] {
      var n := |tags| - 1;
      var init := tags[..n];
      CategoriesFollowTags(init);
      CategoriesAppend(init, [tags[n]]);
      assert tags == init + [tags[n]];
    }
  }

  /** When every tag has a term, the categories are those terms, in order, duplicates kept. */
  lemma {:induction false} CategoriesKeepAll(tags: seq<Option<string>>)
    requires forall i :: 0 <= i < |tags| ==> Present(tags[i])
    ensures |Categories(tags)| == |tags|
    ensures forall i :: 0 <= i < |tags| ==> tags[i] == Some(Categories(tags)[i])
  {
    if tags != [] {
      CategoriesKeepAll(tags[1..]);
    }
  }

  /** Item building distributes over concatenation of entry lists. */
  lemma {:induction false} NormalizeEntriesAppend(convert: DateConverter, a: seq<Entry>, b: seq<Entry>)
    ensures NormalizeEntries(convert, a + b) == NormalizeEntries(convert, a) + NormalizeEntries(convert, b)
  {
    if a == [] {
      assert a + b == b;
    } else {
      assert (a + b)[1..] == a[1..] + b;
      NormalizeEntriesAppend(convert, a[1..], b);
    }
  }

  /**
   * The items are exactly the records of the entries that pass the gate, in
   * the entries' order: item k comes from entry KeptIndices(entries)[k], the
   * indices ascend, and every entry that passes the gate has its index there.
   */
  lemma {:induction false} ItemsFollowEntries(convert: DateConverter, entries: seq<Entry>)
    ensures |NormalizeEntries(convert, entries)| == |KeptIndices(entries)|
    ensures forall k :: 0 <= k < |KeptIndices(entries)| ==>
      KeptIndices(entries)[k] < |entries| && Included(entries[KeptIndices(entries)[k]]) &&
      NormalizeEntries(convert, entries)[k] == ToItem(convert, entries[KeptIndices(entries)[k]])
    ensures forall k, l :: 0 <= k < l < |KeptIndices(entries)| ==> KeptIndices(entries)[k] < KeptIndices(entries)[l]
    ensures forall i :: 0 <= i < |entries| && Included(entries[i]) ==> i in KeptIndices(entries)
  {
    if entries != [] {
      var n := |entries| - 1;
      var init := entries[..n];
      ItemsFollowEntries(convert, init);
      NormalizeEntriesAppend(convert, init, [entries[n]]);
      assert entries == init + [entries[n]];
    }
  }

  /** An entry without a title or a link is the source of no item. */
  lemma ExcludedEntryHasNoItem(convert: DateConverter, entries: seq<Entry>, i: nat)
    requires i < |entries| && !Included(entries[i])
    ensures forall k :: 0 <= k < |KeptIndices(entries)| ==> KeptIndices(entries)[k] != i
    ensures |NormalizeEntries(convert, entries)| < |entries|
  {
    ItemsFollowEntries(convert, entries);
    KeptIndicesBound(entries, i);
  }

  /** Ascending indices below |entries| that miss one position are fewer than |entries|. */
  lemma {:induction false} KeptIndicesBound(entries: seq<Entry>, i: nat)
    requires i < |entries| && !Included(entries[i])
    ensures |KeptIndices(entries)| < |entries|
  {
    var n := |entries| - 1;
    KeptIndicesAtMost(entries[..n]);
    if i < n {
      assert entries[..n][i] == entries[i];
      KeptIndicesBound(entries[..n], i);
    }
  }

  lemma {:induction false} KeptIndicesAtMost(entries: seq<Entry>)
    ensures |KeptIndices(entries)| <= |entries|
  {
    if entries != [] {
      KeptIndicesAtMost(entries[..|entries| - 1]);
    }
  }

  /** Every item copies its entry's fields. */
  lemma ItemFields(convert: DateConverter, entries: seq<Entry>, k: nat)
    requires k < |NormalizeEntries(convert, entries)|
    ensures |KeptIndices(entries)| == |NormalizeEntries(convert, entries)|
    ensures KeptIndices(entries)[k] < |entries|
    ensures var e := entries[KeptIndices(entries)[k]]; var it := NormalizeEntries(convert, entries)[k];
      Present(e.title) && Present(e.link) &&
      it.title == e.title.value && it.url == e.link.value &&
      it.author == Author(e) && it.publishedAt == PublishedAt(convert, e) &&
      it.summaryHtml == SummaryHtml(e) && it.contentHtml == ContentHtml(e) &&
      it.categories == Categories(e.tags)
  {
    ItemsFollowEntries(convert, entries);
  }
}
