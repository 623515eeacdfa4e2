/**
 * The shape of what the content workspace returns to the sync script: pages
 * carrying a bag of typed properties, rich-text spans, and the typed
 * accessors the script reads properties through (scripts/sync-notion.ts).
 */
module Notion {
  import opened Wrappers
  import opened Text

  /** A rich-text span; only its `plain_text`, which may be missing, is read. */
  datatype RichTextItem = RichTextItem(plainText: Option<string>)

  datatype SelectOption = SelectOption(name: Option<string>)

  datatype DateValue = DateValue(start: Option<string>)

  /** A page property, tagged by its column type. */
  datatype Property =
    | TitleProperty(title: seq<RichTextItem>)
    | RichTextProperty(richText: seq<RichTextItem>)
    | SelectProperty(select: Option<SelectOption>)
    | DateProperty(date: Option<DateValue>)
    | OtherProperty(kind: string)

  type Properties = map<string, Property>

  /** A database query result: a full page, or a partial object without `properties`. */
  datatype QueryResult =
    | FullPage(id: string, properties: Properties)
    | PartialPage(id: string)

  /** Why a sync run aborts. */
  datatype SyncError =
    /** A page lacks a property column the script reads: `props.X.type` throws. */
    | MissingProperty(name: string)

  /** `props.Name` followed by a read of its `type`: a missing column is a failure. */
  function Lookup(props: Properties, name: string): (r: Result<Property, SyncError>)
    ensures r.Success? <==> name in props
    ensures r.Success? ==> r.value == props[name]
    ensures r.Failure? ==> r.error == MissingProperty(name)
  {
    if name in props then Success(props[name]) else Failure(MissingProperty(name))
  }

  /** `item.plain_text ?? ""` */
  function SpanText(item: RichTextItem): string {
    item.plainText.GetOr("")
  }

  /** The in-order concatenation of the spans' texts: the reference meaning of a span list. */
  function ConcatSpans(spans: seq<RichTextItem>): string
    decreases |spans|
  {
    if spans == [] then "" else SpanText(spans[0]) + ConcatSpans(spans[1..])
  }

  /** `richText.map((item) => item.plain_text ?? "").join("")` */
  function TextFromRichText(spans: seq<RichTextItem>): (r: string)
    ensures r == ConcatSpans(spans)
  {
    TextFromRichTextIsConcat(spans);
    Join(SpanTexts(spans), "")
  }

  function SpanTexts(spans: seq<RichTextItem>): (r: seq<string>)
    ensures |r| == |spans| && forall i :: 0 <= i < |spans| ==> r[i] == SpanText(spans[i])
  {
    seq(|spans|, i requires 0 <= i < |spans| => SpanText(spans[i]))
  }

  lemma {:induction false} TextFromRichTextIsConcat(spans: seq<RichTextItem>)
    ensures Join(SpanTexts(spans), "") == ConcatSpans(spans)
    decreases |spans|
  {
    if spans != [] {
      var ts := SpanTexts(spans);
      assert ts == [ts[0]] + SpanTexts(spans[1..]);
      JoinEmptySepAppend([ts[0]], SpanTexts(spans[1..]));
      TextFromRichTextIsConcat(spans[1..]);
    }
  }

  /** The text of a span list distributes over concatenation of the list. */
  lemma {:induction false} ConcatSpansAppend(a: seq<RichTextItem>, b: seq<RichTextItem>)
    ensures ConcatSpans(a + b) == ConcatSpans(a) + ConcatSpans(b)
    decreases |a|
  {
    if a == [] {
      assert a + b == b;
    } else {
      assert (a + b)[1..] == a[1..] + b;
      ConcatSpansAppend(a[1..], b);
    }
  }

  /** `titleFromProperty`: the text of a title column, `""` for any other column type. */
  function TitleFromProperty(p: Property): (r: string)
    ensures p.TitleProperty? ==> r == ConcatSpans(p.title)
    ensures !p.TitleProperty? ==> r == ""
  {
    if p.TitleProperty? then TextFromRichText(p.title) else ""
  }

  /** `richTextFromProperty`: the text of a rich-text column, `""` for any other column type. */
  function RichTextFromProperty(p: Property): (r: string)
    ensures p.RichTextProperty? ==> r == ConcatSpans(p.richText)
    ensures !p.RichTextProperty? ==> r == ""
  {
    if p.RichTextProperty? then TextFromRichText(p.richText) else ""
  }

  /** `selectFromProperty`: the chosen option's name; `""` on a type mismatch, no option, or no name. */
  function SelectFromProperty(p: Property): (r: string)
    ensures r != "" <==> p.SelectProperty? && p.select.Some? && Truthy(p.select.value.name)
    ensures r != "" ==> r == p.select.value.name.value
  {
    if !p.SelectProperty? || p.select.None? then "" else p.select.value.name.GetOr("")
  }

  /** `dateFromProperty`: the start date; `""` on a type mismatch, no date, or no start. */
  function DateFromProperty(p: Property): (r: string)
    ensures r != "" <==> p.DateProperty? && p.date.Some? && Truthy(p.date.value.start)
    ensures r != "" ==> r == p.date.value.start.value
  {
    if !p.DateProperty? || p.date.None? then "" else p.date.value.start.GetOr("")
  }
}
