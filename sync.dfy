/**
 * The content sync's driver logic (scripts/sync-notion.ts): following the
 * block-listing cursor of a page, assembling a blog entry from a page and its
 * blocks, building the site configuration map, and reading settings from the
 * environment. The content workspace is an abstract function from a request
 * to its response; what is written to disk is left out.
 */
module Sync {
  import opened Wrappers
  import opened Text
  import opened Notion
  import opened Blocks
  import opened Metadata

  /* ---------- Paging through a page's blocks ---------- */

  /** An entry of a block listing: a full block, or a partial object without a `type`. */
  datatype ListedBlock = FullBlock(block: Block) | PartialBlock(id: string)

  /** One response of the block-children listing. */
  datatype ListResponse = ListResponse(results: seq<ListedBlock>, hasMore: bool, nextCursor: Option<string>)

  /** The listing endpoint: block id and start cursor (absent on the first request) to a response. */
  type BlockLister = (string, Option<string>) -> ListResponse

  /** `response.has_more ? response.next_cursor ?? undefined : undefined` */
  function NextCursor(response: ListResponse): (c: Option<string>)
    ensures c.Some? <==> response.hasMore && response.nextCursor.Some?
    ensures c.Some? ==> c == response.nextCursor
  {
    if response.hasMore then response.nextCursor else None
  }

  /** The full blocks of a listing, in order (`isFullBlock` as a filter). */
  function FullBlocks(results: seq<ListedBlock>): (r: seq<Block>)
    ensures |r| <= |results|
    ensures forall b :: b in r <==> FullBlock(b) in results
    decreases |results|
  {
    if results == [] then []
    else
      var last := results[|results| - 1];
      assert results == results[..|results| - 1] + [last];
      FullBlocks(results[..|results| - 1]) + (if last.FullBlock? then [last.block] else [])
  }

  lemma {:induction false} FullBlocksAppend(a: seq<ListedBlock>, b: seq<ListedBlock>)
    ensures FullBlocks(a + b) == FullBlocks(a) + FullBlocks(b)
    decreases |b|
  {
    if b == [] {
      assert a + b == a;
    } else {
      var b' := b[..|b| - 1];
      assert (a + b)[..|a + b| - 1] == a + b';
      FullBlocksAppend(a, b');
    }
  }

  /**
   * The listing of `blockId` started at `cursor` reaches a response that ends
   * the loop within `fuel` further requests.
   */
  predicate Stops(list: BlockLister, blockId: string, cursor: Option<string>, fuel: nat)
    decreases fuel
  {
    var next := NextCursor(list(blockId, cursor));
    !Truthy(next) || (fuel > 0 && Stops(list, blockId, next, fuel - 1))
  }

  /** The blocks collected from `cursor` on: each response's full blocks, in request order. */
  function Collect(list: BlockLister, blockId: string, cursor: Option<string>, fuel: nat): seq<Block>
    requires Stops(list, blockId, cursor, fuel)
    decreases fuel
  {
    var response := list(blockId, cursor);
    var next := NextCursor(response);
    FullBlocks(response.results) + (if Truthy(next) then Collect(list, blockId, next, fuel - 1) else [])
  }

  /** The start cursors of the requests issued from `cursor` on. */
  function Requests(list: BlockLister, blockId: string, cursor: Option<string>, fuel: nat): seq<Option<string>>
    requires Stops(list, blockId, cursor, fuel)
    decreases fuel
  {
    var next := NextCursor(list(blockId, cursor));
    [cursor] + (if Truthy(next) then Requests(list, blockId, next, fuel - 1) else [])
  }

  /**
   * The request chain: the first request has no cursor, each later request
   * carries the cursor the previous response handed back (which is a
   * non-empty string), and the last response ends the loop.
   */
  lemma {:induction false} RequestsChain(list: BlockLister, blockId: string, cursor: Option<string>, fuel: nat)
    requires Stops(list, blockId, cursor, fuel)
    ensures var rs := Requests(list, blockId, cursor, fuel);
      && rs != [] && rs[0] == cursor
      && (forall i :: 1 <= i < |rs| ==> rs[i] == NextCursor(list(blockId, rs[i - 1])) && Truthy(rs[i]))
      && !Truthy(NextCursor(list(blockId, rs[|rs| - 1])))
    decreases fuel
  {
    var next := NextCursor(list(blockId, cursor));
    if Truthy(next) {
      RequestsChain(list, blockId, next, fuel - 1);
      var rs, tail := Requests(list, blockId, cursor, fuel), Requests(list, blockId, next, fuel - 1);
      assert rs == [cursor] + tail;
      forall i | 1 <= i < |rs|
        ensures rs[i] == NextCursor(list(blockId, rs[i - 1])) && Truthy(rs[i])
      {
        assert rs[i] == tail[i - 1];
        if i > 1 {
          assert rs[i - 1] == tail[i - 2];
        }
      }
    }
  }

  /** The collected blocks are the full blocks of the responses to those requests, in order. */
  lemma {:induction false} CollectIsFullBlocksOfResponses(list: BlockLister, blockId: string, cursor: Option<string>, fuel: nat)
    requires Stops(list, blockId, cursor, fuel)
    ensures Collect(list, blockId, cursor, fuel) == BlocksOfRequests(list, blockId, Requests(list, blockId, cursor, fuel))
    decreases fuel
  {
    var response := list(blockId, cursor);
    var next := NextCursor(response);
    var rs := Requests(list, blockId, cursor, fuel);
    BlocksOfOneRequest(list, blockId, cursor);
    if Truthy(next) {
      var tail := Requests(list, blockId, next, fuel - 1);
      assert rs == [cursor] + tail;
      CollectIsFullBlocksOfResponses(list, blockId, next, fuel - 1);
      BlocksOfRequestsAppend(list, blockId, [cursor], tail);
      assert Collect(list, blockId, cursor, fuel) == FullBlocks(response.results) + Collect(list, blockId, next, fuel - 1);
    } else {
      assert rs == [cursor];
      assert Collect(list, blockId, cursor, fuel) == FullBlocks(response.results) + [];
    }
  }

  lemma BlocksOfOneRequest(list: BlockLister, blockId: string, cursor: Option<string>)
    ensures BlocksOfRequests(list, blockId, [cursor]) == FullBlocks(list(blockId, cursor).results)
  {
    assert [cursor][..0] == [];
  }

  /** The full blocks of the responses to a list of requests, in order. */
  function BlocksOfRequests(list: BlockLister, blockId: string, cursors: seq<Option<string>>): seq<Block>
    decreases |cursors|
  {
    if cursors == [] then []
    else
      var n := |cursors| - 1;
      BlocksOfRequests(list, blockId, cursors[..n]) + FullBlocks(list(blockId, cursors[n]).results)
  }

  lemma {:induction false} BlocksOfRequestsAppend(list: BlockLister, blockId: string, a: seq<Option<string>>, b: seq<Option<string>>)
    ensures BlocksOfRequests(list, blockId, a + b) == BlocksOfRequests(list, blockId, a) + BlocksOfRequests(list, blockId, b)
    decreases |b|
  {
    if b == [] {
      assert a + b == a;
    } else {
      var b', last := b[..|b| - 1], b[|b| - 1];
      var page := FullBlocks(list(blockId, last).results);
      assert (a + b)[..|a + b| - 1] == a + b' && (a + b)[|a + b| - 1] == last;
      assert BlocksOfRequests(list, blockId, a + b) == BlocksOfRequests(list, blockId, a + b') + page;
      assert BlocksOfRequests(list, blockId, b) == BlocksOfRequests(list, blockId, b') + page;
      BlocksOfRequestsAppend(list, blockId, a, b');
      var x, y := BlocksOfRequests(list, blockId, a), BlocksOfRequests(list, blockId, b');
      assert (x + y) + page == x + (y + page);
    }
  }

  /** A response without `has_more`, or with a null `next_cursor`, is the last one requested. */
  lemma LastPage(list: BlockLister, blockId: string, cursor: Option<string>, fuel: nat)
    requires var r := list(blockId, cursor); !r.hasMore || r.nextCursor.None?
    ensures Stops(list, blockId, cursor, fuel)
    ensures Requests(list, blockId, cursor, fuel) == [cursor]
    ensures Collect(list, blockId, cursor, fuel) == FullBlocks(list(blockId, cursor).results)
  {
  }

  /**
   * One iteration of the loop keeps it on track: with the blocks so far
   * followed by what the specification still expects from `cursor`, adding
   * this response's full blocks leaves what is expected from the next cursor,
   * or everything once the loop ends.
   */
  lemma FetchStepBlocks(list: BlockLister, blockId: string, cursor: Option<string>, remaining: nat,
                        blocks: seq<Block>, all: seq<Block>)
    requires Stops(list, blockId, cursor, remaining)
    requires blocks + Collect(list, blockId, cursor, remaining) == all
    ensures var response := list(blockId, cursor);
      var next, blocks' := NextCursor(response), blocks + FullBlocks(response.results);
      && (Truthy(next) ==>
            remaining > 0 && Stops(list, blockId, next, remaining - 1)
            && blocks' + Collect(list, blockId, next, remaining - 1) == all)
      && (!Truthy(next) ==> blocks' == all)
  {
    var response := list(blockId, cursor);
    var next, page := NextCursor(response), FullBlocks(response.results);
    if Truthy(next) {
      var later := Collect(list, blockId, next, remaining - 1);
      assert Collect(list, blockId, cursor, remaining) == page + later;
      assert blocks + (page + later) == (blocks + page) + later;
    } else {
      assert Collect(list, blockId, cursor, remaining) == page + [];
    }
  }

  /** The same step for the requests issued. */
  lemma FetchStepRequests(list: BlockLister, blockId: string, cursor: Option<string>, remaining: nat,
                          requests: seq<Option<string>>, allRequests: seq<Option<string>>)
    requires Stops(list, blockId, cursor, remaining)
    requires requests + Requests(list, blockId, cursor, remaining) == allRequests
    ensures var next := NextCursor(list(blockId, cursor));
      && (Truthy(next) ==> remaining > 0 && requests + [cursor] + Requests(list, blockId, next, remaining - 1) == allRequests)
      && (!Truthy(next) ==> requests + [cursor] == allRequests)
  {
    var next := NextCursor(list(blockId, cursor));
    if Truthy(next) {
      var later := Requests(list, blockId, next, remaining - 1);
      assert Requests(list, blockId, cursor, remaining) == [cursor] + later;
      assert requests + ([cursor] + later) == (requests + [cursor]) + later;
    } else {
      assert Requests(list, blockId, cursor, remaining) == [cursor] + [];
    }
  }

  /** `response.results.forEach(...)`: pushes the full blocks of one response, in order. */
  method PushFullBlocks(blocks: seq<Block>, results: seq<ListedBlock>) returns (out: seq<Block>)
    ensures out == blocks + FullBlocks(results)
  {
    out := blocks;
    for i := 0 to |results|
      invariant out == blocks + FullBlocks(results[..i])
    {
      assert results[..i + 1] == results[..i] + [results[i]];
      if results[i].FullBlock? {
        out := out + [results[i].block];
      }
    }
    assert results[..|results|] == results;
  }

  /**
   * `fetchAllBlocks`: requests pages until the cursor handed back is absent
   * or empty, keeping the full blocks of every page in order. `requests`
   * records the start cursor of each request issued.
   */
  method FetchAllBlocks(list: BlockLister, blockId: string, ghost fuel: nat)
    returns (blocks: seq<Block>, ghost requests: seq<Option<string>>)
    requires Stops(list, blockId, None, fuel)
    ensures blocks == Collect(list, blockId, None, fuel)
    ensures requests == Requests(list, blockId, None, fuel)
  {
    ghost var all, allRequests := Collect(list, blockId, None, fuel), Requests(list, blockId, None, fuel);
    blocks := [];
    requests := [];
    var cursor: Option<string> := None;
    ghost var remaining := fuel;
    var more := true;
    while more
      invariant more ==> Stops(list, blockId, cursor, remaining)
      invariant more ==> blocks + Collect(list, blockId, cursor, remaining) == all
      invariant more ==> requests + Requests(list, blockId, cursor, remaining) == allRequests
      invariant !more ==> blocks == all && requests == allRequests
      decreases more, remaining
    {
      var response := list(blockId, cursor);
      FetchStepBlocks(list, blockId, cursor, remaining, blocks, all);
      FetchStepRequests(list, blockId, cursor, remaining, requests, allRequests);
      requests := requests + [cursor];
      blocks := PushFullBlocks(blocks, response.results);
      cursor := NextCursor(response);
      more := Truthy(cursor);
      if more {
        remaining := remaining - 1;
      }
    }
  }

  /* ---------- Blog entries ---------- */

  /** The property values a blog page contributes, read in the source's order. */
  datatype PageFields = PageFields(title: string, slugText: string, entryType: string, status: string, publishedAt: string)

  /** Reads `Title`, `Slug`, `Type`, `Status`, `PublishedAt`; the first missing column fails the run. */
  function ReadPageFields(props: Properties): (r: Result<PageFields, SyncError>)
    ensures r.Success? <==> "Title" in props && "Slug" in props && "Type" in props && "Status" in props && "PublishedAt" in props
    ensures r.Success? ==> r.value == PageFields(TitleFromProperty(props["Title"]), RichTextFromProperty(props["Slug"]),
      SelectFromProperty(props["Type"]), SelectFromProperty(props["Status"]), DateFromProperty(props["PublishedAt"]))
    ensures r.Failure? ==> r.error == MissingProperty(FirstMissing(props, ["Title", "Slug", "Type", "Status", "PublishedAt"]))
  {
    match Lookup(props, "Title")
    case Failure(e) => Failure(e)
    case Success(title) =>
      match Lookup(props, "Slug")
      case Failure(e) => Failure(e)
      case Success(slug) =>
        match Lookup(props, "Type")
        case Failure(e) => Failure(e)
        case Success(kind) =>
          match Lookup(props, "Status")
          case Failure(e) => Failure(e)
          case Success(status) =>
            match Lookup(props, "PublishedAt")
            case Failure(e) => Failure(e)
            case Success(published) =>
              Success(PageFields(TitleFromProperty(title), RichTextFromProperty(slug),
                SelectFromProperty(kind), SelectFromProperty(status), DateFromProperty(published)))
  }

  /** The first of `names` that is not a column of `props` (`""` if all are). */
  function FirstMissing(props: Properties, names: seq<string>): string
    decreases |names|
  {
    if names == [] then "" else if names[0] !in props then names[0] else FirstMissing(props, names[1..])
  }

  /** A synced blog entry; the optional fields of the source are always set, possibly to `""`. */
  datatype BlogEntry = BlogEntry(
    id: string, slug: string, title: string, entryType: string, status: string, publishedAt: string,
    content: string, contentHtml: string, excerpt: string, readingTime: string)

  /** `blocks.map(f)` */
  function Fragments(blocks: seq<Block>, f: Block -> string): (r: seq<string>)
    ensures |r| == |blocks| && forall i :: 0 <= i < |blocks| ==> r[i] == f(blocks[i])
  {
    seq(|blocks|, i requires 0 <= i < |blocks| => f(blocks[i]))
  }

  lemma FragmentsAppend(a: seq<Block>, b: seq<Block>, f: Block -> string)
    ensures Fragments(a + b, f) == Fragments(a, f) + Fragments(b, f)
  {
  }

  /**
   * Which blocks render to `""`: unsupported ones in every body, and a
   * paragraph without text in the Markdown and the plain text as well.
   */
  lemma EmptyFragments(blocks: seq<Block>)
    ensures forall i :: 0 <= i < |blocks| ==>
      (ConvertBlockToMarkdown(blocks[i]) == "" <==> blocks[i].Unsupported? || (blocks[i].Paragraph? && PlainTextFromBlock(blocks[i]) == ""))
    ensures forall i :: 0 <= i < |blocks| ==> (ConvertBlockToHtml(blocks[i]) == "" <==> blocks[i].Unsupported?)
  {
    forall i | 0 <= i < |blocks|
      ensures ConvertBlockToMarkdown(blocks[i]) == "" <==> blocks[i].Unsupported? || (blocks[i].Paragraph? && PlainTextFromBlock(blocks[i]) == "")
      ensures ConvertBlockToHtml(blocks[i]) == "" <==> blocks[i].Unsupported?
    {
      MarkdownFragmentEmptyIff(blocks[i]);
      HtmlFragmentEmptyIff(blocks[i]);
    }
  }

  /** The Markdown body: non-empty Markdown fragments joined by a blank line; empty when no block renders. */
  function Content(blocks: seq<Block>): (md: string)
    ensures md == "" <==> forall i :: 0 <= i < |blocks| ==>
      blocks[i].Unsupported? || (blocks[i].Paragraph? && PlainTextFromBlock(blocks[i]) == "")
  {
    var parts := Fragments(blocks, ConvertBlockToMarkdown);
    JoinNonEmptyIsEmptyIff(parts, "\n\n");
    EmptyFragments(blocks);
    Join(NonEmpty(parts), "\n\n")
  }

  /** The HTML body: non-empty HTML fragments joined by a newline; empty exactly when every block is unsupported. */
  function ContentHtml(blocks: seq<Block>): (html: string)
    ensures html == "" <==> forall i :: 0 <= i < |blocks| ==> blocks[i].Unsupported?
  {
    var parts := Fragments(blocks, ConvertBlockToHtml);
    JoinNonEmptyIsEmptyIff(parts, "\n");
    EmptyFragments(blocks);
    Join(NonEmpty(parts), "\n")
  }

  /** The plain text: non-empty plain-text fragments joined by a space; empty exactly when no block has text. */
  function PlainText(blocks: seq<Block>): (text: string)
    ensures text == "" <==> forall i :: 0 <= i < |blocks| ==> !HasText(blocks[i]) || ConcatSpans(blocks[i].richText) == ""
  {
    var parts := Fragments(blocks, PlainTextFromBlock);
    JoinNonEmptyIsEmptyIff(parts, " ");
    Join(NonEmpty(parts), " ")
  }

  /** Filter-then-join of `map(f)` over a concatenation glues the two halves' results. */
  lemma JoinedFragmentsAppend(a: seq<Block>, b: seq<Block>, f: Block -> string, sep: string)
    ensures Join(NonEmpty(Fragments(a + b, f)), sep)
         == Glue(Join(NonEmpty(Fragments(a, f)), sep), Join(NonEmpty(Fragments(b, f)), sep), sep)
  {
    FragmentsAppend(a, b, f);
    JoinNonEmptyAppend(Fragments(a, f), Fragments(b, f), sep);
  }

  lemma JoinedFragmentsSingle(b: Block, f: Block -> string, sep: string)
    ensures Join(NonEmpty(Fragments([b], f)), sep) == f(b)
  {
    assert Fragments([b], f) == [f(b)];
    assert NonEmpty([f(b)]) == if f(b) == "" then [] else [f(b)];
  }

  /**
   * Appending one block to a page appends its fragment to each body with the
   * body's separator, and leaves a body unchanged when the fragment is `""`.
   */
  lemma AppendBlock(blocks: seq<Block>, b: Block)
    ensures Content(blocks + [b]) == Glue(Content(blocks), ConvertBlockToMarkdown(b), "\n\n")
    ensures ContentHtml(blocks + [b]) == Glue(ContentHtml(blocks), ConvertBlockToHtml(b), "\n")
    ensures PlainText(blocks + [b]) == Glue(PlainText(blocks), PlainTextFromBlock(b), " ")
  {
    JoinedFragmentsAppend(blocks, [b], ConvertBlockToMarkdown, "\n\n");
    JoinedFragmentsSingle(b, ConvertBlockToMarkdown, "\n\n");
    JoinedFragmentsAppend(blocks, [b], ConvertBlockToHtml, "\n");
    JoinedFragmentsSingle(b, ConvertBlockToHtml, "\n");
    JoinedFragmentsAppend(blocks, [b], PlainTextFromBlock, " ");
    JoinedFragmentsSingle(b, PlainTextFromBlock, " ");
  }

  /** An unsupported block leaves no trace in any of the three bodies. */
  lemma UnsupportedBlockVanishes(blocks: seq<Block>, kind: string)
    ensures Content(blocks + [Unsupported(kind)]) == Content(blocks)
    ensures ContentHtml(blocks + [Unsupported(kind)]) == ContentHtml(blocks)
    ensures PlainText(blocks + [Unsupported(kind)]) == PlainText(blocks)
  {
    AppendBlock(blocks, Unsupported(kind));
  }

  /** An empty paragraph is filtered out of the Markdown and the plain text but adds `<p></p>` to the HTML. */
  lemma EmptyParagraph(blocks: seq<Block>)
    ensures Content(blocks + [Paragraph([])]) == Content(blocks)
    ensures PlainText(blocks + [Paragraph([])]) == PlainText(blocks)
    ensures ContentHtml(blocks + [Paragraph([])]) == Glue(ContentHtml(blocks), "<p></p>", "\n")
  {
    var p := Paragraph([]);
    AppendBlock(blocks, p);
    assert ConcatSpans([]) == "";
    assert PlainTextFromBlock(p) == "" && ConvertBlockToMarkdown(p) == "";
    EmptyParagraphHtml();
  }

  lemma EmptyParagraphHtml()
    ensures ConvertBlockToHtml(Paragraph([])) == "<p></p>"
  {
    assert ConcatSpans([]) == "" && EscapeHtml("") == "";
    assert "<p>" + "" + "</p>" == "<p></p>";
  }

  /** `richTextFromProperty(props.Slug) || typedPage.id` */
  function SlugOf(slugText: string, id: string): (slug: string)
    ensures slugText != "" ==> slug == slugText
    ensures slugText == "" ==> slug == id
  {
    if slugText != "" then slugText else id
  }

  /** The entry built from a page's id, slug, fields and blocks. */
  function AssembleEntry(id: string, slug: string, fields: PageFields, blocks: seq<Block>): (e: BlogEntry)
    ensures e.excerpt == "" <==> e.readingTime == ""
  {
    var plain := PlainText(blocks);
    ReadingTimeEmptyIffExcerptEmpty(plain);
    BlogEntry(id, slug, fields.title, fields.entryType, fields.status, fields.publishedAt,
      Content(blocks), ContentHtml(blocks), BuildExcerpt(plain), EstimateReadingTime(plain))
  }

  /** The blocks of a full page terminate their listing within `fuel` requests. */
  predicate PageStops(list: BlockLister, page: QueryResult, fuel: nat) {
    page.FullPage? ==> Stops(list, page.id, None, fuel)
  }

  /** A full page lacking one of the five columns. */
  predicate IncompletePage(page: QueryResult) {
    page.FullPage? && ReadPageFields(page.properties).Failure?
  }

  /**
   * One query result: skipped (`None`), an entry, or the error that aborts
   * the run. It aborts exactly for a full page lacking one of the five
   * columns, and is skipped exactly for a partial page or a page with
   * neither slug text nor id.
   */
  function PageEntry(list: BlockLister, page: QueryResult, fuel: nat): (r: Result<Option<BlogEntry>, SyncError>)
    requires PageStops(list, page, fuel)
    ensures r.Failure? <==> IncompletePage(page)
    ensures r == Success(None) <==>
      page.PartialPage? || (ReadPageFields(page.properties).Success? && ReadPageFields(page.properties).value.slugText == "" && page.id == "")
    ensures r.Success? && r.value.Some? ==> r.value.value.id == page.id && r.value.value.slug != ""
  {
    match page
    case PartialPage(_) => Success(None)
    case FullPage(id, props) =>
      match ReadPageFields(props)
      case Failure(e) => Failure(e)
      case Success(fields) =>
        var slug := SlugOf(fields.slugText, id);
        if slug == "" then Success(None)
        else Success(Some(AssembleEntry(id, slug, fields, Collect(list, id, None, fuel))))
  }

  predicate AllPagesStop(list: BlockLister, pages: seq<QueryResult>, fuel: nat) {
    forall i :: 0 <= i < |pages| ==> PageStops(list, pages[i], fuel)
  }

  /**
   * The entries of a query, in result order, or the first error; every
   * entry has a non-empty slug, and there are no more entries than results.
   */
  function BlogEntriesOf(list: BlockLister, pages: seq<QueryResult>, fuel: nat): (r: Result<seq<BlogEntry>, SyncError>)
    requires AllPagesStop(list, pages, fuel)
    ensures r.Success? ==> |r.value| <= |pages| && forall i :: 0 <= i < |r.value| ==> r.value[i].slug != ""
    decreases |pages|
  {
    if pages == [] then Success([])
    else
      var n := |pages| - 1;
      match BlogEntriesOf(list, pages[..n], fuel)
      case Failure(e) => Failure(e)
      case Success(entries) =>
        match PageEntry(list, pages[n], fuel)
        case Failure(e) => Failure(e)
        case Success(None) => Success(entries)
        case Success(Some(entry)) => Success(entries + [entry])
  }

  /** A page the query keeps: a full page with all five columns and an id or slug to name it by. */
  predicate Keeps(page: QueryResult) {
    page.FullPage? && ReadPageFields(page.properties).Success?
    && SlugOf(ReadPageFields(page.properties).value.slugText, page.id) != ""
  }

  /** The positions holding `true`, in increasing order. */
  function Positions(flags: seq<bool>): seq<nat>
    decreases |flags|
  {
    if flags == [] then []
    else
      var n := |flags| - 1;
      Positions(flags[..n]) + (if flags[n] then [n] else [])
  }

  lemma {:induction false} PositionsSound(flags: seq<bool>)
    ensures var ps := Positions(flags);
      && |ps| <= |flags| && forall j :: 0 <= j < |ps| ==> ps[j] < |flags| && flags[ps[j]]
    decreases |flags|
  {
    if flags != [] {
      var n := |flags| - 1;
      var prefix := flags[..n];
      PositionsSound(prefix);
      var ps, ps' := Positions(prefix), Positions(flags);
      forall j | 0 <= j < |ps'|
        ensures ps'[j] < |flags| && flags[ps'[j]]
      {
        if j < |ps| {
          assert ps'[j] == ps[j] && prefix[ps[j]] == flags[ps[j]];
        }
      }
    }
  }

  lemma {:induction false} PositionsIncrease(flags: seq<bool>)
    ensures var ps := Positions(flags); forall j, k :: 0 <= j < k < |ps| ==> ps[j] < ps[k]
    decreases |flags|
  {
    if flags != [] {
      var n := |flags| - 1;
      var prefix := flags[..n];
      PositionsIncrease(prefix);
      PositionsSound(prefix);
      var ps, ps' := Positions(prefix), Positions(flags);
      forall j, k | 0 <= j < k < |ps'|
        ensures ps'[j] < ps'[k]
      {
        assert ps'[j] == ps[j];
        if k < |ps| {
          assert ps'[k] == ps[k];
        }
      }
    }
  }

  lemma {:induction false} PositionsComplete(flags: seq<bool>)
    ensures forall i :: 0 <= i < |flags| && flags[i] ==> i in Positions(flags)
    decreases |flags|
  {
    if flags != [] {
      var n := |flags| - 1;
      var prefix := flags[..n];
      PositionsComplete(prefix);
      var ps, ps' := Positions(prefix), Positions(flags);
      forall i | 0 <= i < |flags| && flags[i]
        ensures i in ps'
      {
        if i < n {
          assert prefix[i] == flags[i];
        }
      }
    }
  }

  /** Which query results the run keeps, position by position. */
  function KeepFlags(pages: seq<QueryResult>): (flags: seq<bool>)
    ensures |flags| == |pages| && forall i :: 0 <= i < |pages| ==> flags[i] == Keeps(pages[i])
  {
    seq(|pages|, i requires 0 <= i < |pages| => Keeps(pages[i]))
  }

  /** The positions of the kept pages, in increasing order. */
  function KeptPages(pages: seq<QueryResult>): seq<nat> {
    Positions(KeepFlags(pages))
  }

  /** Adding a result adds its position when it is kept. */
  lemma KeptPagesStep(pages: seq<QueryResult>)
    requires pages != []
    ensures var n := |pages| - 1;
      KeptPages(pages) == KeptPages(pages[..n]) + (if Keeps(pages[n]) then [n] else [])
  {
    var n := |pages| - 1;
    assert KeepFlags(pages)[..n] == KeepFlags(pages[..n]);
  }

  /** Position `i` is among the kept positions exactly when page `i` is kept; they increase. */
  lemma KeptPagesSpec(pages: seq<QueryResult>)
    ensures var ks := KeptPages(pages);
      && |ks| <= |pages|
      && (forall j :: 0 <= j < |ks| ==> ks[j] < |pages| && Keeps(pages[ks[j]]))
      && (forall j, k :: 0 <= j < k < |ks| ==> ks[j] < ks[k])
      && (forall i :: 0 <= i < |pages| && Keeps(pages[i]) ==> i in ks)
  {
    var flags := KeepFlags(pages);
    PositionsSound(flags);
    PositionsIncrease(flags);
    PositionsComplete(flags);
  }

  /** A page is kept exactly when PageEntry builds an entry for it. */
  lemma KeepsIff(list: BlockLister, page: QueryResult, fuel: nat)
    requires PageStops(list, page, fuel)
    ensures Keeps(page) <==> PageEntry(list, page, fuel).Success? && PageEntry(list, page, fuel).value.Some?
  {
  }

  /** A successful query extends the entries of its prefix by the last page's entry, if it has one. */
  lemma BlogEntriesStep(list: BlockLister, pages: seq<QueryResult>, fuel: nat)
    requires AllPagesStop(list, pages, fuel) && pages != []
    requires BlogEntriesOf(list, pages, fuel).Success?
    ensures var n, out := |pages| - 1, PageEntry(list, pages[|pages| - 1], fuel);
      && BlogEntriesOf(list, pages[..n], fuel).Success? && out.Success?
      && BlogEntriesOf(list, pages, fuel).value
         == BlogEntriesOf(list, pages[..n], fuel).value + (if out.value.Some? then [out.value.value] else [])
  {
  }

  /** On success, entry `j` of the query is the entry PageEntry builds from the `j`-th kept page. */
  lemma {:induction false} BlogEntriesAreKeptEntries(list: BlockLister, pages: seq<QueryResult>, fuel: nat)
    requires AllPagesStop(list, pages, fuel)
    requires BlogEntriesOf(list, pages, fuel).Success?
    ensures var ks, entries := KeptPages(pages), BlogEntriesOf(list, pages, fuel).value;
      && |entries| == |ks|
      && forall j :: 0 <= j < |ks| ==>
           (ks[j] < |pages| && PageEntry(list, pages[ks[j]], fuel).Success? && PageEntry(list, pages[ks[j]], fuel).value.Some?
            && entries[j] == PageEntry(list, pages[ks[j]], fuel).value.value)
    decreases |pages|
  {
    if pages != [] {
      var n := |pages| - 1;
      var prefix := pages[..n];
      BlogEntriesStep(list, pages, fuel);
      BlogEntriesAreKeptEntries(list, prefix, fuel);
      KeptPagesStep(pages);
      KeepsIff(list, pages[n], fuel);
      var ks, entries := KeptPages(prefix), BlogEntriesOf(list, prefix, fuel).value;
      var ks', entries' := KeptPages(pages), BlogEntriesOf(list, pages, fuel).value;
      forall j | 0 <= j < |ks'|
        ensures ks'[j] < |pages| && PageEntry(list, pages[ks'[j]], fuel).Success? && PageEntry(list, pages[ks'[j]], fuel).value.Some?
          && entries'[j] == PageEntry(list, pages[ks'[j]], fuel).value.value
      {
        if j < |ks| {
          assert ks'[j] == ks[j] && entries'[j] == entries[j];
          assert prefix[ks[j]] == pages[ks[j]];
        }
      }
    }
  }

  /** A kept page's entry carries the page id, the slug text or else the id, and the page's fields and blocks. */
  lemma PageEntryFields(list: BlockLister, page: QueryResult, fuel: nat)
    requires PageStops(list, page, fuel)
    requires PageEntry(list, page, fuel).Success? && PageEntry(list, page, fuel).value.Some?
    ensures var e, f := PageEntry(list, page, fuel).value.value, ReadPageFields(page.properties).value;
      && page.FullPage? && ReadPageFields(page.properties).Success?
      && e.id == page.id && e.slug != ""
      && e.slug == (if f.slugText != "" then f.slugText else page.id)
      && e.title == f.title && e.entryType == f.entryType && e.status == f.status && e.publishedAt == f.publishedAt
      && var blocks := Collect(list, page.id, None, fuel);
         e.content == Content(blocks) && e.contentHtml == ContentHtml(blocks)
         && e.excerpt == BuildExcerpt(PlainText(blocks)) && e.readingTime == EstimateReadingTime(PlainText(blocks))
  {
  }

  /** Once a prefix fails, the whole query fails with the same error. */
  lemma {:induction false} BlogEntriesFailureSticks(list: BlockLister, pages: seq<QueryResult>, fuel: nat, k: nat)
    requires AllPagesStop(list, pages, fuel) && k <= |pages|
    requires BlogEntriesOf(list, pages[..k], fuel).Failure?
    ensures BlogEntriesOf(list, pages, fuel) == BlogEntriesOf(list, pages[..k], fuel)
    decreases |pages| - k
  {
    if k < |pages| {
      var n := |pages| - 1;
      assert pages[..n][..k] == pages[..k];
      BlogEntriesFailureSticks(list, pages[..n], fuel, k);
    } else {
      assert pages[..k] == pages;
    }
  }

  /** The run fails exactly when some full page lacks one of the five columns. */
  lemma {:induction false} BlogEntriesFailIff(list: BlockLister, pages: seq<QueryResult>, fuel: nat)
    requires AllPagesStop(list, pages, fuel)
    ensures BlogEntriesOf(list, pages, fuel).Failure? <==> exists i :: 0 <= i < |pages| && IncompletePage(pages[i])
    decreases |pages|
  {
    if pages != [] {
      var n := |pages| - 1;
      var prefix := pages[..n];
      assert AllPagesStop(list, prefix, fuel) by {
        assert forall i :: 0 <= i < n ==> prefix[i] == pages[i];
      }
      BlogEntriesFailIff(list, prefix, fuel);
      BlogEntriesFailStep(list, pages, fuel);
      SomeIncompleteSplit(pages);
    }
  }

  lemma SomeIncompleteSplit(pages: seq<QueryResult>)
    requires pages != []
    ensures var n := |pages| - 1;
      (exists i :: 0 <= i < |pages| && IncompletePage(pages[i]))
        <==> (exists i :: 0 <= i < n && IncompletePage(pages[..n][i])) || IncompletePage(pages[n])
  {
    var n := |pages| - 1;
    var prefix := pages[..n];
    if i :| 0 <= i < |pages| && IncompletePage(pages[i]) {
      if i < n {
        assert prefix[i] == pages[i];
      }
    }
    if i :| 0 <= i < n && IncompletePage(prefix[i]) {
      assert pages[i] == prefix[i];
    }
  }

  lemma BlogEntriesFailStep(list: BlockLister, pages: seq<QueryResult>, fuel: nat)
    requires pages != [] && AllPagesStop(list, pages, fuel)
    ensures var n := |pages| - 1;
      BlogEntriesOf(list, pages, fuel).Failure? <==> BlogEntriesOf(list, pages[..n], fuel).Failure? || IncompletePage(pages[n])
  {
  }

  /**
   * `fetchBlogEntries` after the query: for each result, skip partial pages,
   * read the properties, fall back to the id for the slug, skip a page without
   * slug, fetch its blocks and push the assembled entry.
   */
  method FetchBlogEntries(list: BlockLister, pages: seq<QueryResult>, ghost fuel: nat)
    returns (r: Result<seq<BlogEntry>, SyncError>)
    requires AllPagesStop(list, pages, fuel)
    ensures r == BlogEntriesOf(list, pages, fuel)
  {
    var entries: seq<BlogEntry> := [];
    for i := 0 to |pages|
      invariant BlogEntriesOf(list, pages[..i], fuel) == Success(entries)
    {
      assert pages[..i + 1][..i] == pages[..i];
      var page := pages[i];
      if page.PartialPage? {
        continue;
      }
      var fields := ReadPageFields(page.properties);
      if fields.Failure? {
        BlogEntriesFailureSticks(list, pages, fuel, i + 1);
        return Failure(fields.error);
      }
      var slug := SlugOf(fields.value.slugText, page.id);
      if slug == "" {
        continue;
      }
      var blocks, _ := FetchAllBlocks(list, page.id, fuel);
      entries := entries + [AssembleEntry(page.id, slug, fields.value, blocks)];
    }
    assert pages[..|pages|] == pages;
    return Success(entries);
  }

  /** `<slug>.json`: the file an entry is written to. */
  function EntryFileName(slug: string): string {
    slug + ".json"
  }

  /** Distinct slugs are written to distinct files. */
  lemma EntryFileNameInjective(a: string, b: string)
    ensures EntryFileName(a) == EntryFileName(b) <==> a == b
  {
    if EntryFileName(a) == EntryFileName(b) {
      assert a == EntryFileName(a)[..|a|];
      assert |a| == |b|;
    }
  }

  /* ---------- Site configuration ---------- */

  /** One configuration row: skipped (`None`), a key and value, or the error of a missing column. */
  function ConfigRow(page: QueryResult): (r: Result<Option<(string, string)>, SyncError>)
    ensures r.Failure? <==> page.FullPage? && !("Key" in page.properties && "Value" in page.properties)
    ensures r.Success? && r.value.Some? ==>
      page.FullPage? && r.value.value == (TitleFromProperty(page.properties["Key"]), RichTextFromProperty(page.properties["Value"]))
      && r.value.value.0 != ""
    ensures r.Success? && page.FullPage? && TitleFromProperty(page.properties["Key"]) != "" ==> r.value.Some?
  {
    match page
    case PartialPage(_) => Success(None)
    case FullPage(_, props) =>
      match Lookup(props, "Key")
      case Failure(e) => Failure(e)
      case Success(keyProp) =>
        match Lookup(props, "Value")
        case Failure(e) => Failure(e)
        case Success(valueProp) =>
          var key := TitleFromProperty(keyProp);
          var value := RichTextFromProperty(valueProp);
          if key == "" then Success(None) else Success(Some((key, value)))
  }

  /** The row sets `key` (to some value). */
  predicate SetsKey(page: QueryResult, key: string) {
    var r := ConfigRow(page);
    r.Success? && r.value.Some? && r.value.value.0 == key
  }

  /** The configuration map built from the rows in order, or the first error; the empty key never appears. */
  function SiteConfigOf(pages: seq<QueryResult>): (r: Result<map<string, string>, SyncError>)
    ensures r.Success? ==> "" !in r.value
    decreases |pages|
  {
    if pages == [] then Success(map[])
    else
      var n := |pages| - 1;
      match SiteConfigOf(pages[..n])
      case Failure(e) => Failure(e)
      case Success(config) =>
        match ConfigRow(pages[n])
        case Failure(e) => Failure(e)
        case Success(None) => Success(config)
        case Success(Some(row)) => Success(config[row.0 := row.1])
  }

  /** The keys of the map are exactly the keys the rows set. */
  lemma {:induction false} SiteConfigKeys(pages: seq<QueryResult>)
    requires SiteConfigOf(pages).Success?
    ensures forall k :: k in SiteConfigOf(pages).value <==> exists i :: 0 <= i < |pages| && SetsKey(pages[i], k)
    decreases |pages|
  {
    if pages != [] {
      var n := |pages| - 1;
      var prefix := pages[..n];
      SiteConfigStep(pages);
      SiteConfigKeys(prefix);
      forall k
        ensures k in SiteConfigOf(pages).value <==> exists i :: 0 <= i < |pages| && SetsKey(pages[i], k)
      {
        SetsKeySplit(pages, k);
      }
    }
  }

  lemma SetsKeySplit(pages: seq<QueryResult>, key: string)
    requires pages != []
    ensures var n := |pages| - 1;
      (exists i :: 0 <= i < |pages| && SetsKey(pages[i], key))
        <==> (exists i :: 0 <= i < n && SetsKey(pages[..n][i], key)) || SetsKey(pages[n], key)
  {
    var n := |pages| - 1;
    var prefix := pages[..n];
    if i :| 0 <= i < |pages| && SetsKey(pages[i], key) {
      if i < n {
        assert prefix[i] == pages[i];
      }
    }
    if i :| 0 <= i < n && SetsKey(prefix[i], key) {
      assert pages[i] == prefix[i];
    }
  }

  /** Last write wins: a key maps to the value of the last row that sets it. */
  lemma {:induction false} SiteConfigLastWriteWins(pages: seq<QueryResult>, i: nat, key: string, value: string)
    requires SiteConfigOf(pages).Success?
    requires i < |pages| && ConfigRow(pages[i]) == Success(Some((key, value)))
    requires forall j :: i < j < |pages| ==> !SetsKey(pages[j], key)
    ensures key in SiteConfigOf(pages).value && SiteConfigOf(pages).value[key] == value
    decreases |pages|
  {
    var n := |pages| - 1;
    SiteConfigStep(pages);
    var config, row := SiteConfigOf(pages[..n]).value, ConfigRow(pages[n]).value;
    if i < n {
      var prefix := pages[..n];
      assert prefix[i] == pages[i];
      forall j | i < j < n
        ensures !SetsKey(prefix[j], key)
      {
        assert prefix[j] == pages[j];
      }
      SiteConfigLastWriteWins(prefix, i, key, value);
      assert !SetsKey(pages[n], key);
    }
    LookupAfterRow(SiteConfigOf(pages).value, config, row, key, value);
  }

  lemma LookupAfterRow(m: map<string, string>, config: map<string, string>, row: Option<(string, string)>, key: string, value: string)
    requires m == if row.Some? then config[row.value.0 := row.value.1] else config
    requires row == Some((key, value)) || ((row.None? || row.value.0 != key) && key in config && config[key] == value)
    ensures key in m && m[key] == value
  {
  }

  /** A successful configuration is the prefix's map with the last row applied. */
  lemma SiteConfigStep(pages: seq<QueryResult>)
    requires pages != [] && SiteConfigOf(pages).Success?
    ensures var n := |pages| - 1;
      && SiteConfigOf(pages[..n]).Success? && ConfigRow(pages[n]).Success?
      && var config, row := SiteConfigOf(pages[..n]).value, ConfigRow(pages[n]).value;
         SiteConfigOf(pages).value == if row.Some? then config[row.value.0 := row.value.1] else config
  {
  }

  /** `fetchSiteConfig` after the query: each row with a non-empty key sets `config[key] = value`. */
  method FetchSiteConfig(pages: seq<QueryResult>) returns (r: Result<map<string, string>, SyncError>)
    ensures r == SiteConfigOf(pages)
  {
    var config: map<string, string> := map[];
    for i := 0 to |pages|
      invariant SiteConfigOf(pages[..i]) == Success(config)
    {
      assert pages[..i + 1][..i] == pages[..i];
      var row := ConfigRow(pages[i]);
      if row.Failure? {
        SiteConfigFailureSticks(pages, i + 1);
        return Failure(row.error);
      }
      if row.value.Some? {
        config := config[row.value.value.0 := row.value.value.1];
      }
    }
    assert pages[..|pages|] == pages;
    return Success(config);
  }

  lemma {:induction false} SiteConfigFailureSticks(pages: seq<QueryResult>, k: nat)
    requires k <= |pages| && SiteConfigOf(pages[..k]).Failure?
    ensures SiteConfigOf(pages) == SiteConfigOf(pages[..k])
    decreases |pages| - k
  {
    if k < |pages| {
      var n := |pages| - 1;
      assert pages[..n][..k] == pages[..k];
      SiteConfigFailureSticks(pages[..n], k);
    } else {
      assert pages[..k] == pages;
    }
  }

  /* ---------- Environment ---------- */

  /** `getEnv`: the trimmed value of a variable, or absent when it is unset or only whitespace. */
  function GetEnv(env: map<string, string>, name: string): (r: Option<string>)
    ensures r.Some? <==> name in env && !AllSpace(env[name])
    ensures r.Some? ==> r.value == Trim(env[name]) && r.value != "" && Trim(r.value) == r.value
  {
    if name !in env then None
    else
      var value := env[name];
      TrimEmptyIff(value);
      TrimIdempotent(value);
      if value == "" || Trim(value) == "" then None else Some(Trim(value))
  }
}
