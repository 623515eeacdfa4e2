/**
 * The page-view counter (app/api/views/route.ts): the in-memory store used
 * when no key-value service is configured, the key names and expiry used
 * with the service, and the request handler's slug default and error
 * fallback. The clock is an input (an ISO timestamp) and the service's
 * replies are inputs.
 */
module Views {
  import opened Wrappers
  import opened Text

  /** The counters reported for a page. */
  datatype Counts = Counts(today: nat, total: nat)

  const NoCounts: Counts := Counts(0, 0)

  /** `toISOString().slice(0, 10)`: the first ten characters, the date part. */
  function DateOf(iso: string): (date: string)
    ensures |date| == if |iso| < 10 then |iso| else 10
    ensures date == iso[..|date|]
  {
    if |iso| <= 10 then iso else iso[..10]
  }

  /** The characters after the last `:`, or all of them if there is none. */
  function AfterLastColon(s: string): string
    decreases |s|
  {
    if s == [] || s[|s| - 1] == ':' then [] else AfterLastColon(s[..|s| - 1]) + [s[|s| - 1]]
  }

  lemma {:induction false} AfterLastColonOf(p: string, d: string)
    requires ':' !in d
    ensures AfterLastColon(p + ":" + d) == d
    decreases |d|
  {
    var s := p + ":" + d;
    if d == [] {
      assert s[|s| - 1] == ':';
    } else {
      var d' := d[..|d| - 1];
      assert d[|d| - 1] in d;
      assert forall c :: c in d' ==> c in d;
      assert s[..|s| - 1] == p + ":" + d';
      AfterLastColonOf(p, d');
      assert d' + [d[|d| - 1]] == d;
    }
  }

  /** `${slug}:${today}`: the in-memory key of a page on a day. */
  function MemoryKey(slug: string, date: string): (key: string)
    ensures |key| == |slug| + 1 + |date| && key[..|slug|] == slug
    ensures key[|slug|] == ':' && key[|slug| + 1..] == date
    ensures ':' !in date ==> AfterLastColon(key) == date
  {
    var key := slug + ":" + date;
    assert key[..|slug|] == slug && key[|slug| + 1..] == date;
    if ':' !in date then AfterLastColonOf(slug, date); key else key
  }

  /** Keys of different pages or days differ, because a date has no `:`. */
  lemma MemoryKeyInjective(slug1: string, date1: string, slug2: string, date2: string)
    requires ':' !in date1 && ':' !in date2
    ensures MemoryKey(slug1, date1) == MemoryKey(slug2, date2) <==> slug1 == slug2 && date1 == date2
  {
    if MemoryKey(slug1, date1) == MemoryKey(slug2, date2) {
      AfterLastColonOf(slug1, date1);
      AfterLastColonOf(slug2, date2);
      var k := MemoryKey(slug1, date1);
      assert slug1 == k[..|slug1|];
      assert slug2 == k[..|slug2|];
    }
  }

  /** `views:${slug}:total` */
  function TotalKey(slug: string): (key: string)
    ensures |key| == |slug| + 12 && key[6..|key| - 6] == slug
    ensures key[..6] == "views:" && key[|key| - 6..] == ":total"
  {
    var key := "views:" + slug + ":total";
    assert key[6..|key| - 6] == slug;
    key
  }

  /** `views:${slug}:today:${today}` */
  function TodayKey(slug: string, date: string): (key: string)
    ensures |key| == |slug| + 13 + |date| && key[..6] == "views:" && key[6..6 + |slug|] == slug
    ensures key[6 + |slug|..13 + |slug|] == ":today:" && key[13 + |slug|..] == date
    ensures ':' !in date ==> AfterLastColon(key) == date
  {
    var key := "views:" + (slug + (":today:" + date));
    Segments4("views:", slug, ":today:", date);
    assert key[..6] == "views:";
    assert key == ("views:" + slug + ":today") + ":" + date;
    if ':' !in date then AfterLastColonOf("views:" + slug + ":today", date); key else key
  }

  /** Three days, in seconds: the expiry of a day's counter. */
  const TodayExpiry: nat := 3 * 24 * 60 * 60

  /** A page's total counter and its daily counter are different keys. */
  lemma TotalKeyIsNotTodayKey(slug: string, date: string)
    ensures TotalKey(slug) != TodayKey(slug, date)
  {
    assert TotalKey(slug)[6 + |slug| + 3] == 't';
    assert TodayKey(slug, date)[6 + |slug| + 3] == 'd';
  }

  /** Different pages have different total counters. */
  lemma TotalKeyInjective(slug1: string, slug2: string)
    ensures TotalKey(slug1) == TotalKey(slug2) <==> slug1 == slug2
  {
    if TotalKey(slug1) == TotalKey(slug2) {
      var k := TotalKey(slug1);
      assert slug1 == k[6..|k| - 6];
      assert slug2 == TotalKey(slug2)[6..|k| - 6];
    }
  }

  /** Different pages or days have different daily counters, because a date has no `:`. */
  lemma TodayKeyInjective(slug1: string, date1: string, slug2: string, date2: string)
    requires ':' !in date1 && ':' !in date2
    ensures TodayKey(slug1, date1) == TodayKey(slug2, date2) <==> slug1 == slug2 && date1 == date2
  {
    var k := TodayKey(slug1, date1);
    if k == TodayKey(slug2, date2) {
      assert date1 == AfterLastColon(k) == date2;
      assert |slug1| == |slug2|;
      assert slug1 == k[6..6 + |slug1|] == slug2;
    }
  }

  /** A command sent to the key-value service. */
  datatype KvCommand = Incr(key: string) | Expire(key: string, seconds: nat)

  /** `incrementWithKV`: bump both counters and let the daily one expire after three days. */
  function KvCommands(slug: string, date: string): (commands: seq<KvCommand>)
    ensures |commands| == 3
    ensures commands[0] == Incr(TotalKey(slug)) && commands[1] == Incr(TodayKey(slug, date))
    ensures commands[0].key != commands[1].key
    ensures commands[2] == Expire(commands[1].key, 259200)
  {
    TotalKeyIsNotTodayKey(slug, date);
    [Incr(TotalKey(slug)), Incr(TodayKey(slug, date)), Expire(TodayKey(slug, date), TodayExpiry)]
  }

  /** What the handler answers: a status and the counts. */
  datatype ViewsResponse = ViewsResponse(status: nat, counts: Counts)

  /** `searchParams.get("slug") || "home"` */
  function SlugOrHome(param: Option<string>): (slug: string)
    ensures Truthy(param) ==> slug == param.value
    ensures !Truthy(param) ==> slug == "home"
    ensures slug != ""
  {
    if Truthy(param) then param.value else "home"
  }

  /**
   * The answer on the key-value path: the replies to the two increments as
   * `{ today, total }`, or zero counts if the service failed; always 200.
   */
  function KvResponse(replies: Result<(nat, nat), string>): (r: ViewsResponse)
    ensures r.status == 200
    ensures replies.Success? ==> r.counts.total == replies.value.0 && r.counts.today == replies.value.1
    ensures replies.Failure? ==> r.counts == NoCounts
  {
    match replies
    case Success((total, todayCount)) => ViewsResponse(200, Counts(todayCount, total))
    case Failure(_) => ViewsResponse(200, NoCounts)
  }

  /** The process-wide in-memory store (`memoryStore`). */
  class ViewStore {
    var store: map<string, Counts>

    /** Both counters of an entry start at zero and move together. */
    ghost predicate Valid()
      reads this
    {
      forall key :: key in store ==> store[key].today == store[key].total
    }

    constructor ()
      ensures store == map[] && Valid()
    {
      store := map[];
    }

    /** `incrementInMemory`: add one view to the page's entry for the day, creating it at zero. */
    method IncrementInMemory(slug: string, now: string) returns (next: Counts)
      requires Valid()
      modifies this
      ensures Valid()
      ensures var key := MemoryKey(slug, DateOf(now));
        var prev := if key in old(store) then old(store)[key] else NoCounts;
        next == Counts(prev.today + 1, prev.total + 1) && store == old(store)[key := next]
      ensures next.today == next.total >= 1
    {
      var key := MemoryKey(slug, DateOf(now));
      var prev := if key in store then store[key] else NoCounts;
      next := Counts(prev.today + 1, prev.total + 1);
      store := store[key := next];
    }

    /**
     * `POST`: the slug defaults to `home`; with the key-value service the
     * page's commands are issued (`commands`), the answer comes from the
     * service's replies and the store is untouched; without it the in-memory
     * entry is incremented. The status is always 200.
     */
    method Post(slugParam: Option<string>, hasKv: bool, replies: Result<(nat, nat), string>, now: string)
      returns (r: ViewsResponse, commands: seq<KvCommand>)
      requires Valid()
      modifies this
      ensures Valid() && r.status == 200
      ensures hasKv ==> commands == KvCommands(SlugOrHome(slugParam), DateOf(now))
      ensures !hasKv ==> commands == []
      ensures hasKv ==> r == KvResponse(replies) && store == old(store)
      ensures !hasKv ==> var key := MemoryKey(SlugOrHome(slugParam), DateOf(now));
        var prev := if key in old(store) then old(store)[key] else NoCounts;
        r.counts == Counts(prev.today + 1, prev.total + 1) && store == old(store)[key := r.counts]
    {
      var slug := SlugOrHome(slugParam);
      commands := [];
      if hasKv {
        commands := KvCommands(slug, DateOf(now));
        r := KvResponse(replies);
      } else {
        var counts := IncrementInMemory(slug, now);
        r := ViewsResponse(200, counts);
      }
    }
  }
}
