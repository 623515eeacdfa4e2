# A verified model of the wilsonchao.com content sync, feeds and view counter

The site keeps its blog as JSON files that a batch script builds from a
Notion workspace. It serves those entries as RSS feeds and counts page views
through a small HTTP handler. This project models the logic of those parts
in Dafny and proves what they promise.

- **Content sync** (`scripts/sync-notion.ts`):
  - the typed property accessors and the rich-text concatenation;
  - the three block converters (Markdown, escaped HTML, plain text);
  - the reading-time estimate and the excerpt;
  - the cursor loop that collects a page's blocks;
  - assembling one blog entry per published page;
  - building the site configuration map;
  - reading settings from the environment.
- **RSS assembly** (`lib/rss.ts`): XML escaping, the `<item>` template, the
  channel document and the response headers.
- **Feed routes**: the blog feed built on `lib/rss.ts`
  (`app/feed.xml/route.ts`), the self-contained blog feed
  (`app/feed/route.ts`) and the daily feed of projects
  (`app/daily/feed.xml/route.ts`).
- **View counter** (`app/api/views/route.ts`): the in-memory store as a
  class, the key-value keys and their expiry, and the handler's slug default
  and error fallback.

Files:

| file | module | contents |
|---|---|---|
| wrappers.dfy | Wrappers | `Option` (with `:-` support) and `Result` |
| text.dfy | Text | `\s` whitespace, `trim`, `join`, template concatenation, `filter(Boolean)`, truthiness, decimal numerals |
| escaping.dfy | Escaping | the five-`replace` escape chain, proved equal to a per-character entity map that `Unescape` inverts |
| notion.dfy | Notion | pages, properties, rich-text spans and the accessors |
| blocks.dfy | Blocks | the block type and the three converters |
| metadata.dfy | Metadata | words, reading time, whitespace collapse, excerpt |
| sync.dfy | Sync | block paging, entry assembly, site configuration, `getEnv` |
| rss.dfy | Rss | `escapeXml`, `renderItem`, `buildRssResponse` |
| rss_decode.dfy | RssDecode | a reader for the documents `buildRssResponse` writes, used to state round trips |
| feeds.dfy | Feeds | the three feed routes |
| views.dfy | Views | the view counter |

A few modelling choices:

- **Template strings.** Each JavaScript template literal is the list of its
  fixed and variable parts, and `Concat` joins them. The chain
  `.replace(/&/g, …)…` is modelled as written: five `ReplaceAll` passes. It
  is then proved equal to a per-character map. That map never produces `<`,
  `>`, `"` or `'`, and decoding its output gives back the input.
- **RSS reader.** `RssDecode` is a reader for the documents that
  `buildRssResponse` produces. With it, "every item appears once, in order,
  with `<pubDate>` exactly when a date is given" is stated as a round trip.
  The property reads: parsing the rendered document yields the channel's
  title, link and optional description, followed by each item's fields.
- **Notion workspace.** The workspace is an abstract function from a
  request (block id, start cursor) to a response. A page's blocks are
  specified by `Collect`, which follows that function until the cursor ends
  the loop. `Requests` records the requests issued.
- **Missing columns.** A missing property column (`props.Slug` is
  `undefined`, so reading `.type` throws) aborts the whole run. The model
  returns this as `Failure(MissingProperty(name))`.
- **View counter.** `ViewStore.Valid` states that in memory mode
  `today == total` for every entry. This holds because both counts start at
  0 and every increment adds 1 to both. Because the in-memory key includes
  the date (`slug:YYYY-MM-DD`), the in-memory "total" counts only that
  day's views, unlike the key-value path.

## Model

| member | source | states |
|---|---|---|
| Escaping.EscapeChainSpec | app/feed/route.ts:6-13 | the five chained replacements, `&` first, escape each character exactly once (equal to the per-character entity map); the result contains no `<`, `>`, `"`, `'`, and unescaping it gives back the input |
| Escaping.EscapeChainIsCharMap | lib/rss.ts:11-17 | because `&` is replaced first and no replacement introduces a later target, the replace chain equals escaping character by character (no double escaping) |
| Escaping.UnescapeEscapeEach | lib/rss.ts:11-17 | escaping loses nothing: decoding the five entities recovers the original text |
| Escaping.EscapeChain | lib/rss.ts:11-17 | the escaped text is never shorter than the input, and text with none of `&`, `<`, `>`, `"`, `'` passes through unchanged |
| Notion.Lookup | scripts/sync-notion.ts:223-228 | reading `props.X` succeeds exactly when the column exists, with its value; otherwise the run fails naming that column |
| Notion.TextFromRichText | scripts/sync-notion.ts:64-66 | mapping spans to `plain_text ?? ""` and joining with `""` is the in-order concatenation of span texts (a missing text counts as empty) |
| Notion.TitleFromProperty | scripts/sync-notion.ts:68-71 | a title column yields its span text; any other column type yields `""` |
| Notion.RichTextFromProperty | scripts/sync-notion.ts:73-76 | a rich-text column yields its span text; any other column type yields `""` |
| Notion.SelectFromProperty | scripts/sync-notion.ts:78-81 | non-empty exactly when the column is a select with an option whose name is non-empty, and then it is that name |
| Notion.DateFromProperty | scripts/sync-notion.ts:83-86 | non-empty exactly when the column is a date with a non-empty start, and then it is the start |
| Blocks.EscapeHtml | scripts/sync-notion.ts:113-120 | HTML escaping (`&#039;` for the apostrophe) is the per-character entity map, leaves no markup character and is inverted by unescaping |
| Blocks.ConvertBlockToMarkdown | scripts/sync-notion.ts:88-111 | a text block is its type's Markdown prefix followed by its span text, a divider is `---`, any other block type is `""` |
| Blocks.ConvertBlockToHtml | scripts/sync-notion.ts:122-147 | a text block is its escaped span text between its type's opening and closing tags, a divider is `<hr />`, any other block type is `""` |
| Blocks.PlainTextFromBlock | scripts/sync-notion.ts:149-170 | a text block is its span text; a divider and any other block type are `""` |
| Blocks.BlockConversionTable | scripts/sync-notion.ts:88-170 | for every text block, Markdown is its prefix plus its verbatim span text, HTML is its escaped span text between its tags, and plain text is its span text; a divider is `---`, `<hr />`, `""`; any other type is `""` in all three |
| Blocks.HtmlFragmentCarriesPlainText | scripts/sync-notion.ts:122-147 | stripping a text block's HTML tags and decoding the inside gives exactly its plain text |
| Blocks.HtmlFragmentEmptyIff | scripts/sync-notion.ts:122-147 | the HTML fragment is empty exactly for unsupported block types |
| Blocks.MarkdownFragmentEmptyIff | scripts/sync-notion.ts:88-111 | the Markdown fragment is empty exactly for unsupported types and text-less paragraphs |
| Metadata.WordsAreWords | scripts/sync-notion.ts:173 | the tokens counted are non-empty and free of whitespace |
| Metadata.WordCountZeroIff | scripts/sync-notion.ts:173-174 | the word count is zero exactly when the text is all whitespace |
| Metadata.RoundedMinutes | scripts/sync-notion.ts:175 | `Math.round(words / 180)`: the whole number nearest to words/180, halves rounded up |
| Metadata.ReadingMinutes | scripts/sync-notion.ts:175 | one minute below 90 words, and from 90 words on the rounded value, itself at least one |
| Metadata.EstimateReadingTime | scripts/sync-notion.ts:172-177 | `""` exactly for an all-whitespace text, otherwise the decimal minutes followed by ` min` |
| Metadata.NormalizeIsJoinedWords | scripts/sync-notion.ts:180 | `replace(/\s+/g, " ").trim()` is the text's words joined by single spaces |
| Metadata.BuildExcerpt | scripts/sync-notion.ts:179-183 | `""` exactly for an all-whitespace text; the joined words when they fit in 200 characters, else their first 200 characters and `...` (so at most 203 characters) |
| Metadata.ReadingTimeEmptyIffExcerptEmpty | scripts/sync-notion.ts:239-240 | an entry has a reading time exactly when it has an excerpt |
| Sync.NextCursor | scripts/sync-notion.ts:198 | the next cursor is present exactly when the response has more results and a cursor, and then it is that cursor |
| Sync.FullBlocks | scripts/sync-notion.ts:58-62 | the blocks kept from a response are exactly its full blocks, never more than the results |
| Sync.PushFullBlocks | scripts/sync-notion.ts:193-197 | the `forEach` appends exactly the full blocks of one response, in order, to the blocks so far |
| Sync.FetchAllBlocks | scripts/sync-notion.ts:185-201 | the loop returns the full blocks of every response in request order (`Collect`) and issues exactly the requests of `Requests` |
| Sync.RequestsChain | scripts/sync-notion.ts:187-199 | the first request has no cursor; each later one carries the non-empty cursor the previous response handed back; the last response yields no usable cursor |
| Sync.CollectIsFullBlocksOfResponses | scripts/sync-notion.ts:193-197 | the collected blocks are the concatenated full blocks of the responses to those requests |
| Sync.FullBlocksAppend | scripts/sync-notion.ts:193-197 | filtering full blocks distributes over concatenation of result lists, so order is kept |
| Sync.LastPage | scripts/sync-notion.ts:198-199 | a response without `has_more` or with a null cursor is the only request, and its full blocks are the result |
| Sync.ReadPageFields | scripts/sync-notion.ts:224-228 | succeeds exactly when all five columns exist, with each read by its accessor; otherwise fails naming the first missing one in source order |
| Sync.SlugOf | scripts/sync-notion.ts:225 | the slug text when non-empty, otherwise the page id |
| Sync.AppendBlock | scripts/sync-notion.ts:236-238 | each body grows by the new block's fragment after its separator (blank line, newline, space), and not at all when that fragment is `""` |
| Sync.UnsupportedBlockVanishes | scripts/sync-notion.ts:236-238 | an unsupported block leaves the Markdown, HTML and plain text unchanged |
| Sync.EmptyParagraph | scripts/sync-notion.ts:236-238 | an empty paragraph vanishes from Markdown and plain text but adds `<p></p>` to the HTML |
| Sync.Content | scripts/sync-notion.ts:236 | the Markdown body is empty exactly when every block is of an unsupported type or a paragraph without text |
| Sync.ContentHtml | scripts/sync-notion.ts:237 | the HTML body is empty exactly when every block is of an unsupported type |
| Sync.PlainText | scripts/sync-notion.ts:238 | the plain text is empty exactly when no block has any text |
| Sync.AssembleEntry | scripts/sync-notion.ts:238-253 | the entry has an excerpt exactly when it has a reading time |
| Sync.PageEntry | scripts/sync-notion.ts:220-253 | a result aborts the run exactly when it is a full page lacking one of the five columns, and is skipped exactly when it is a partial page or has neither slug text nor id; a kept entry carries the page id and a non-empty slug |
| Sync.PageEntryFields | scripts/sync-notion.ts:235-253 | a kept page's entry has the page id, a non-empty slug (slug text, else id), the page's fields, and bodies built from the page's collected blocks |
| Sync.BlogEntriesOf | scripts/sync-notion.ts:218-256 | every synced entry has a non-empty slug, and there are no more entries than results |
| Sync.KeepsIff | scripts/sync-notion.ts:220-233 | a result is kept exactly when it yields an entry: a full page with all five columns and a slug or id |
| Sync.KeptPagesSpec | scripts/sync-notion.ts:220-233 | the kept positions increase, lie within the results, and hold exactly the full pages that have all five columns and a slug or id |
| Sync.BlogEntriesAreKeptEntries | scripts/sync-notion.ts:218-256 | on success there is one entry per kept page, and entry `j` is the entry built from the `j`-th kept page |
| Sync.BlogEntriesFailIff | scripts/sync-notion.ts:220-254 | the query fails exactly when some full page lacks one of the five columns |
| Sync.BlogEntriesFailureSticks | scripts/sync-notion.ts:220-254 | once a prefix of the results fails, the whole run fails with that error |
| Sync.FetchBlogEntries | scripts/sync-notion.ts:218-256 | the loop yields `BlogEntriesOf`: the entries of the kept pages in result order (pinned by `Sync.BlogEntriesAreKeptEntries`), or the first error |
| Sync.EntryFileNameInjective | scripts/sync-notion.ts:264 | the file-name string `<slug>.json` is injective in the slug |
| Sync.ConfigRow | scripts/sync-notion.ts:280-286 | a config row fails exactly when a full page lacks `Key` or `Value`; a row kept has a non-empty key read by the accessors; a full row with a non-empty key is kept |
| Sync.SiteConfigOf | scripts/sync-notion.ts:277-289 | the empty key never appears in the configuration |
| Sync.SiteConfigKeys | scripts/sync-notion.ts:279-287 | the map's keys are exactly the keys set by some row |
| Sync.SiteConfigLastWriteWins | scripts/sync-notion.ts:286 | a key maps to the value of the last row that sets it |
| Sync.SiteConfigFailureSticks | scripts/sync-notion.ts:279-287 | once a prefix of the rows fails, the whole result is that error |
| Sync.FetchSiteConfig | scripts/sync-notion.ts:272-290 | the loop yields `SiteConfigOf`, the map built from the rows in order |
| Sync.GetEnv | scripts/sync-notion.ts:33-39 | present exactly when the variable is set and not all whitespace; then it is the trimmed value, non-empty and unchanged by trimming again |
| Rss.EscapeXml | lib/rss.ts:11-17 | XML escaping (`&apos;`) is the per-character entity map, leaves no markup character and is inverted by unescaping |
| Rss.GuidOf | lib/rss.ts:23 | the guid when non-empty, otherwise the link |
| Rss.PubDateElement | lib/rss.ts:24 | the `<pubDate>` element is present exactly when the date is non-empty, and carries it unescaped |
| Rss.DescriptionElement | lib/rss.ts:25 | the `<description>` element is present exactly when the text is non-empty, and carries it escaped |
| Rss.RenderItem | lib/rss.ts:19-26 | an item is an `<item>` element on a new line that opens with the escaped title, followed by the link element |
| Rss.RenderItems | lib/rss.ts:41 | the rendered items concatenated in input order with no separator |
| Rss.RssXml | lib/rss.ts:41-50 | the document opens with the XML declaration and an RSS 2.0 channel whose first element is the escaped title, followed by the link element |
| Rss.BuildRssResponse | lib/rss.ts:52-57 | status 200, the RSS content type, the document as body, and the cache header for the given lifetime or 900 seconds |
| Rss.CacheControl | lib/rss.ts:56 | the header is `public, max-age=`, then the lifetime's numeral (read back as the leading digits), then `, stale-while-revalidate=`, then the numeral of four times the lifetime |
| Rss.DefaultCacheControl | lib/rss.ts:33 | the default header is `public, max-age=900, stale-while-revalidate=3600` |
| Rss.CacheControlInjective | lib/rss.ts:56 | different lifetimes give different cache headers |
| RssDecode.ItemRoundTrip | lib/rss.ts:19-26 | reading a rendered item gives its escaped fields back, the guid fallback, a date exactly when one is given and a description exactly when a non-empty one is given, and leaves the rest of the input |
| RssDecode.ItemsRoundTrip | lib/rss.ts:41 | reading the concatenated items gives one item per input item, in order |
| RssDecode.DocumentRoundTrip | lib/rss.ts:42-50 | reading the document gives the channel title and link, the description exactly when it is non-empty, and the items in order |
| Feeds.SiteUrl | app/feed.xml/route.ts:4 | the configured site URL when non-empty, else `https://wilsonchao.com` |
| Feeds.FormattedDate | app/feed.xml/route.ts:16 | a date is formatted exactly when the entry has a non-empty one |
| Feeds.BlogItems | app/feed.xml/route.ts:12-18 | one item per entry, in order, each with the entry's blog URL as link and guid |
| Feeds.BlogFeed | app/feed.xml/route.ts:6-19 | status 200, the RSS content type, the default header `public, max-age=900, stale-while-revalidate=3600`, and a document whose channel is titled `wilsonchao.com blog` |
| Feeds.BlogFeedReadsBack | app/feed.xml/route.ts:6-19 | the blog feed reads back as its fixed title and description, the site link and one item per entry in order, with a date exactly when the entry has one and the excerpt as description when non-empty; status 200 with the default cache header |
| Feeds.BuildRss | app/feed/route.ts:15-39 | the document opens with the XML declaration and an RSS 2.0 channel titled `wilsonchao.com blog`, followed by the link element |
| Feeds.StandaloneFeed | app/feed/route.ts:41-51 | status 200, the RSS content type, the cache header `buildRssResponse` sends by default (900 seconds), and a document whose channel is titled `wilsonchao.com blog` |
| Feeds.StandaloneItemAgrees | app/feed/route.ts:17-26 | the self-contained item template renders an entry exactly as `lib/rss.ts` renders the blog feed's item for it |
| Feeds.BlogFeedsAgree | app/feed/route.ts:41-51 | both blog routes serve the same body, status, content type and cache header |
| Feeds.DailyLink | app/daily/feed.xml/route.ts:9-13 | the daily page URL when the project has a slug, else its `href` when that starts with `http`, else none |
| Feeds.DailyItems | app/daily/feed.xml/route.ts:8-24 | at most one item per project, each with a non-empty link that is also its guid |
| Feeds.KeptIndicesSpec | app/daily/feed.xml/route.ts:8-14 | position `i` is kept exactly when project `i` has a link, and kept positions increase |
| Feeds.DailyItemsAreKeptItems | app/daily/feed.xml/route.ts:8-24 | item `j` of the daily feed is the item of the `j`-th kept project, so order is kept and linkless projects are dropped |
| Feeds.DailyItemLinks | app/daily/feed.xml/route.ts:15-23 | every daily item has a non-empty link used as its guid, no date exactly when the project has none, and the excerpt or else the description |
| Feeds.DailyFeed | app/daily/feed.xml/route.ts:26-31 | status 200, the RSS content type, the default cache header, and a document whose channel is titled `wilsonchao.com daily` |
| Feeds.DailyFeedReadsBack | app/daily/feed.xml/route.ts:26-31 | the daily feed reads back with its fixed title and description, `<siteUrl>/daily` as link, and the kept projects' items; status 200 with the default cache header |
| Views.DateOf | app/api/views/route.ts:34 | the first ten characters of the timestamp, or all of it if shorter |
| Views.MemoryKey | app/api/views/route.ts:35 | the key is the slug, then `:`, then the date; for a colon-free date the text after the last `:` is the date |
| Views.MemoryKeyInjective | app/api/views/route.ts:35 | different pages or days have different in-memory keys |
| Views.TotalKeyIsNotTodayKey | app/api/views/route.ts:18-19 | a page's total counter and its daily counter are different keys |
| Views.TotalKey | app/api/views/route.ts:18 | `views:`, then the slug, then `:total`, so the slug reads back from the key |
| Views.TodayKey | app/api/views/route.ts:19 | `views:`, then the slug, then `:today:`, then the date; for a colon-free date the text after the last `:` is the date |
| Views.TotalKeyInjective | app/api/views/route.ts:18 | different pages have different total counters |
| Views.TodayKeyInjective | app/api/views/route.ts:19 | different pages or days have different daily counters |
| Views.KvCommands | app/api/views/route.ts:18-28 | increments `views:<slug>:total` and `views:<slug>:today:<date>`, two distinct keys, then sets a three-day (259200 s) expiry on the daily key |
| Views.SlugOrHome | app/api/views/route.ts:44 | the slug parameter when non-empty, otherwise `home` |
| Views.KvResponse | app/api/views/route.ts:47-51 | status 200 with `{ today, total }` from the two replies, or zero counts when the service fails |
| Views.ViewStore.constructor | app/api/views/route.ts:10-12 | the store starts empty |
| Views.ViewStore.IncrementInMemory | app/api/views/route.ts:33-40 | the page's entry for the day (zero if absent) goes up by one in both counters, no other entry changes, and `today == total` stays invariant |
| Views.ViewStore.Post | app/api/views/route.ts:42-53 | always 200; with the key-value service it issues the page's commands, answers from the replies and leaves the store alone; without it, it increments the in-memory entry for `slug` or `home` |

## Left out

- The Notion SDK and the network. The database query, including its `Status = Published` filter and `PublishedAt` descending sort, is done by the server: its results are an input in server order. Block listing is an abstract function.
- `dotenv`, the missing-settings warning and `process.exit(0)`, `main`, `Promise.all` and console output. These are process plumbing around the modelled functions: the model treats the two fetches as independent functions of their inputs.
- Writing the cache files, `mkdir` and `JSON.stringify`. Only the file name of an entry is modelled.
- Sync.EntryFileNameInjective: only the string `<slug>.json` is proved injective. `path.join` normalizes `.` and `..` segments and repeated separators, so distinct slugs such as `a/../b` and `b` name one file, and `../x` leaves the blog directory. Two entries with the same slug are written to one file in an order `Promise.all` does not fix. Paths and the file system are not modelled.
- Query pagination: the blog query and the site-configuration query (scripts/sync-notion.ts:204-216, 273-275) each read one response and never pass its cursor on. Only that first response's results are synced, and the model takes that one result list as its input.
- Sync.FetchAllBlocks: requires that the listing reaches a last page within a ghost bound (`Stops`). An endless cursor chain, on which the script would loop forever, is not modelled.
- Sync.FetchBlogEntries: requires that the block listing of every full page stops within one common bound, including pages the run would skip or never reach because an earlier one aborts.
- `new Date(x).toUTCString()` and `new Date().toISOString()`. The first is an abstract formatter, the second an input string. Feeds.BlogFeedReadsBack and Feeds.DailyFeedReadsBack assume the formatter's output is non-empty and has no `<`, as an HTTP date does.
- Feeds.BlogFeedsAgree: assumes the formatter never returns `""`, since the self-contained template checks the raw date and `lib/rss.ts` checks the formatted one.
- Rss.BuildRssResponse: `cacheSeconds` is a JavaScript number but is modelled as a natural number. Negative or fractional lifetimes, and the numerals JavaScript prints for them, are not modelled. Nor are lifetimes of 10^21 seconds or more, which JavaScript prints in exponent form, or the rounding of values above 2^53. No route in this model passes a lifetime.
- RssDecode.DocumentRoundTrip: requires each item's date to contain no `<`, because `renderItem` does not escape the date.
- The key-value service: `kv.incr` and `kv.expire` are not modelled and their replies are inputs, as is whether the service is configured. Both increments run concurrently and atomically in the source; the model only lists the commands.
- `NextResponse`: only the body, the status and the two header values are kept.
- The `memoryStore` global that survives module reloads: `ViewStore` is a single object, and it is not safe under concurrency.
- Strings are sequences of Unicode scalar values, not UTF-16 code units. So `slice(0, 200)` and `slice(0, 10)` count characters, and a surrogate pair is one character. The whitespace class of `\s` and `trim` is written out as a fixed set.
- JavaScript object semantics of the site configuration: key insertion order and special keys such as `__proto__` are not modelled; it is a map.
- `lib/content` (loading the cache for the feeds) and the UI components are not part of this model. Loaded entries and projects are inputs with the fields the feeds read.
- A field that is `undefined` in a `BlogEntry` is always set in the model, possibly to `""`; the sync always sets every field.
