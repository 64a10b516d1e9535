/** The feed scanner `parse_rss_feed`: it cuts a document into `<item>` blocks
    and then `<entry>` blocks with one shared cursor, decodes title, link and
    date from each block, and emits the entries that are complete and pass the
    date filter. Printing is modelled by the sequence of emitted posts, and the
    clock-dependent `is_today` by a predicate the caller supplies. */
module Feed {
  import opened Text
  import opened Extract
  import opened Segment

  /** RSS wraps posts in `<item>` and dates them with `<pubDate>`; Atom wraps
      them in `<entry>` and dates them with `<updated>`. */
  datatype Schema = Rss | Atom

  function OpenTag(k: Schema): string {
    match k
    case Rss => "<item>"
    case Atom => "<entry>"
  }

  function CloseTag(k: Schema): string {
    match k
    case Rss => "</item>"
    case Atom => "</entry>"
  }

  function DateOpen(k: Schema): string {
    match k
    case Rss => "<pubDate>"
    case Atom => "<updated>"
  }

  function DateClose(k: Schema): string {
    match k
    case Rss => "</pubDate>"
    case Atom => "</updated>"
  }

  /** The three fields decoded from one block; a missing field is empty. */
  datatype Entry = Entry(title: string, link: string, date: string)

  /** One printed post: the headline, URL and date lines of an accepted entry.
      The schema selects the date label ("Publication Date" or "Updated Date"). */
  datatype Post = Post(schema: Schema, entry: Entry)

  // ---------------------------------------------------------------------------
  // Decoding one block

  function Decode(block: string, k: Schema): Entry {
    Entry(ExtractElement(block, "<title>", "</title>").UnwrapOr(""),
          ExtractElement(block, "<link>", "</link>").UnwrapOr(""),
          ExtractElement(block, DateOpen(k), DateClose(k)).UnwrapOr(""))
  }

  /** All three fields are non-empty. */
  predicate Complete(e: Entry) {
    e.title != [] && e.link != [] && e.date != []
  }

  /** The emission test of both loops. */
  predicate Accepts(e: Entry, fetchAll: bool, isToday: string -> bool) {
    Complete(e) && (fetchAll || isToday(e.date))
  }

  /** Both wrapper tag pairs have the shape the segmenter lemmas need. */
  lemma SchemaWrappers(k: Schema)
    ensures WrapperPair(OpenTag(k), CloseTag(k))
  {
  }

  // ---------------------------------------------------------------------------
  // What one loop prints

  /** Every span lies inside the document. */
  predicate InDoc(s: string, bs: seq<Span>) {
    forall i :: 0 <= i < |bs| ==> bs[i].lo <= bs[i].hi <= |s|
  }

  /** The entry decoded from block `b` of document `s`. */
  function BlockEntry(s: string, k: Schema, b: Span): Entry
    requires b.lo <= b.hi <= |s|
  {
    Decode(s[b.lo..b.hi], k)
  }

  /** The post printed for block `b`, if any. */
  function Emitted(s: string, k: Schema, b: Span, fetchAll: bool, isToday: string -> bool): seq<Post>
    requires b.lo <= b.hi <= |s|
  {
    var e := BlockEntry(s, k, b);
    if Accepts(e, fetchAll, isToday) then [Post(k, e)] else []
  }

  /** The posts printed for the blocks `bs`, in block order. */
  function Posts(s: string, k: Schema, bs: seq<Span>, fetchAll: bool, isToday: string -> bool): seq<Post>
    requires InDoc(s, bs)
    decreases |bs|
  {
    if bs == [] then [] else Emitted(s, k, bs[0], fetchAll, isToday) + Posts(s, k, bs[1..], fetchAll, isToday)
  }

  /** Every printed post comes from one of the blocks, carries the schema of
      the loop, and is complete and accepted by the date filter. */
  lemma {:induction false} PostsSound(s: string, k: Schema, bs: seq<Span>, fetchAll: bool, isToday: string -> bool)
    requires InDoc(s, bs)
    ensures forall p :: p in Posts(s, k, bs, fetchAll, isToday) ==>
      p.schema == k && Accepts(p.entry, fetchAll, isToday) &&
      exists i :: 0 <= i < |bs| && p.entry == BlockEntry(s, k, bs[i])
    decreases |bs|
  {
    if bs != [] {
      PostsSound(s, k, bs[1..], fetchAll, isToday);
      forall p | p in Posts(s, k, bs[1..], fetchAll, isToday)
        ensures exists i :: 0 <= i < |bs| && p.entry == BlockEntry(s, k, bs[i])
      {
        var i :| 0 <= i < |bs[1..]| && p.entry == BlockEntry(s, k, bs[1..][i]);
        assert bs[1..][i] == bs[i + 1];
      }
    }
  }

  /** Every block whose entry is complete and accepted is printed. */
  lemma {:induction false} PostsComplete(s: string, k: Schema, bs: seq<Span>, fetchAll: bool, isToday: string -> bool)
    requires InDoc(s, bs)
    ensures forall i :: 0 <= i < |bs| && Accepts(BlockEntry(s, k, bs[i]), fetchAll, isToday) ==>
      Post(k, BlockEntry(s, k, bs[i])) in Posts(s, k, bs, fetchAll, isToday)
    decreases |bs|
  {
    if bs != [] {
      PostsComplete(s, k, bs[1..], fetchAll, isToday);
      forall i | 1 <= i < |bs| ensures bs[i] == bs[1..][i - 1] {
      }
    }
  }

  /** Nothing is printed exactly when no block holds a complete, accepted entry. */
  lemma PostsEmptyIff(s: string, k: Schema, bs: seq<Span>, fetchAll: bool, isToday: string -> bool)
    requires InDoc(s, bs)
    ensures Posts(s, k, bs, fetchAll, isToday) == [] <==>
      forall i :: 0 <= i < |bs| ==> !Accepts(BlockEntry(s, k, bs[i]), fetchAll, isToday)
  {
    PostsSound(s, k, bs, fetchAll, isToday);
    PostsComplete(s, k, bs, fetchAll, isToday);
    if Posts(s, k, bs, fetchAll, isToday) != [] {
      assert Posts(s, k, bs, fetchAll, isToday)[0] in Posts(s, k, bs, fetchAll, isToday);
    }
  }

  /** With `fetch_all` set the clock is never consulted. */
  lemma {:induction false} FetchAllIgnoresClock(s: string, k: Schema, bs: seq<Span>, today1: string -> bool, today2: string -> bool)
    requires InDoc(s, bs)
    ensures Posts(s, k, bs, true, today1) == Posts(s, k, bs, true, today2)
    decreases |bs|
  {
    if bs != [] {
      FetchAllIgnoresClock(s, k, bs[1..], today1, today2);
    }
  }

  /** The date filter only removes posts: every post printed without
      `fetch_all` is printed with it. */
  lemma TodayOnlyIsFewer(s: string, k: Schema, bs: seq<Span>, isToday: string -> bool)
    requires InDoc(s, bs)
    ensures forall p :: p in Posts(s, k, bs, false, isToday) ==> p in Posts(s, k, bs, true, isToday)
  {
    PostsSound(s, k, bs, false, isToday);
    PostsComplete(s, k, bs, true, isToday);
  }

  // ---------------------------------------------------------------------------
  // The whole document

  /** The blocks the RSS loop visits: it runs only when `<item>` occurs. */
  function RssBlocks(s: string): seq<Span> {
    if Contains(s, OpenTag(Rss)) then Blocks(s, OpenTag(Rss), CloseTag(Rss), 0) else []
  }

  /** The cursor the RSS loop leaves for the Atom loop. */
  function RssStop(s: string): nat {
    if Contains(s, OpenTag(Rss)) then StopPos(s, OpenTag(Rss), CloseTag(Rss), 0) else 0
  }

  /** The blocks the Atom loop visits: it runs only when `<entry>` occurs, and
      starts from the cursor the RSS loop left. */
  function AtomBlocks(s: string): seq<Span> {
    if Contains(s, OpenTag(Atom)) then Blocks(s, OpenTag(Atom), CloseTag(Atom), RssStop(s)) else []
  }

  /** Everything `parse_rss_feed` prints for document `s` as posts: the RSS
      posts, then the Atom posts. */
  function FeedPosts(s: string, fetchAll: bool, isToday: string -> bool): seq<Post> {
    Posts(s, Rss, RssBlocks(s), fetchAll, isToday) + Posts(s, Atom, AtomBlocks(s), fetchAll, isToday)
  }

  /** The `contains` guards change nothing: a loop whose start tag is absent
      would yield nothing and leave the cursor where it was anyway. */
  lemma GuardsChangeNothing(s: string)
    ensures RssBlocks(s) == Blocks(s, OpenTag(Rss), CloseTag(Rss), 0)
    ensures RssStop(s) == StopPos(s, OpenTag(Rss), CloseTag(Rss), 0)
    ensures AtomBlocks(s) == Blocks(s, OpenTag(Atom), CloseTag(Atom), RssStop(s))
  {
    if !Contains(s, OpenTag(Rss)) {
      NoOpenTagNoBlocks(s, OpenTag(Rss), CloseTag(Rss), 0);
    }
    if !Contains(s, OpenTag(Atom)) {
      NoOpenTagNoBlocks(s, OpenTag(Atom), CloseTag(Atom), RssStop(s));
    }
  }

  /** The cursor is shared: every RSS block ends at or before the cursor the
      RSS loop leaves, and every Atom block starts at or after it, so an
      `<entry>` that starts before the end of the last complete `<item>` is
      never visited. */
  lemma AtomResumesAtRssStop(s: string)
    ensures forall i :: 0 <= i < |RssBlocks(s)| ==> RssBlocks(s)[i].hi <= RssStop(s)
    ensures forall i :: 0 <= i < |AtomBlocks(s)| ==> RssStop(s) <= AtomBlocks(s)[i].lo
  {
    var rss := RssBlocks(s);
    if Contains(s, OpenTag(Rss)) && rss != [] {
      BlocksOrdered(s, OpenTag(Rss), CloseTag(Rss), 0);
      StopAtLastBlock(s, OpenTag(Rss), CloseTag(Rss), 0);
      forall i | 0 <= i < |rss| - 1 ensures rss[i].hi <= RssStop(s) {
        assert rss[i].hi <= rss[|rss| - 1].lo;
      }
    }
  }

  /** Every RSS block begins with `<item>` and ends with the first `</item>`
      after it, and every Atom block likewise with `<entry>` and `</entry>`;
      in neither do the two tags overlap. */
  lemma SchemaBlocksFramed(s: string)
    ensures forall i :: 0 <= i < |RssBlocks(s)| ==>
      Framed(s, OpenTag(Rss), CloseTag(Rss), RssBlocks(s)[i]) &&
      RssBlocks(s)[i].lo + |OpenTag(Rss)| + |CloseTag(Rss)| <= RssBlocks(s)[i].hi
    ensures forall i :: 0 <= i < |AtomBlocks(s)| ==>
      Framed(s, OpenTag(Atom), CloseTag(Atom), AtomBlocks(s)[i]) &&
      AtomBlocks(s)[i].lo + |OpenTag(Atom)| + |CloseTag(Atom)| <= AtomBlocks(s)[i].hi
  {
    GuardsChangeNothing(s);
    SchemaWrappers(Rss);
    SchemaWrappers(Atom);
    BlocksFramed(s, OpenTag(Rss), CloseTag(Rss), 0);
    BlocksFramed(s, OpenTag(Atom), CloseTag(Atom), RssStop(s));
  }

  /** An `<item>` with no `</item>` after it ends the RSS loop: no RSS block
      reaches past it, and the Atom loop starts at or before it. */
  lemma RssDanglingStops(s: string, d: nat)
    requires OccursAt(s, OpenTag(Rss), d) && AbsentFrom(s, CloseTag(Rss), d)
    ensures forall i :: 0 <= i < |RssBlocks(s)| ==> RssBlocks(s)[i].hi <= d
    ensures RssStop(s) <= d
  {
    GuardsChangeNothing(s);
    SchemaWrappers(Rss);
    DanglingStops(s, OpenTag(Rss), CloseTag(Rss), 0, d);
  }

  /** An `<entry>` with no `</entry>` after it, at or after the cursor the RSS
      loop leaves, ends the Atom loop: no Atom block reaches past it. */
  lemma AtomDanglingStops(s: string, d: nat)
    requires RssStop(s) <= d && OccursAt(s, OpenTag(Atom), d) && AbsentFrom(s, CloseTag(Atom), d)
    ensures forall i :: 0 <= i < |AtomBlocks(s)| ==> AtomBlocks(s)[i].hi <= d
  {
    GuardsChangeNothing(s);
    SchemaWrappers(Atom);
    DanglingStops(s, OpenTag(Atom), CloseTag(Atom), RssStop(s), d);
  }

  /** Nothing is printed exactly when neither loop meets a complete, accepted
      entry; then the "No posts" notice follows. */
  lemma FeedEmptyIff(s: string, fetchAll: bool, isToday: string -> bool)
    ensures FeedPosts(s, fetchAll, isToday) == [] <==>
      (forall i :: 0 <= i < |RssBlocks(s)| ==> !Accepts(BlockEntry(s, Rss, RssBlocks(s)[i]), fetchAll, isToday)) &&
      (forall i :: 0 <= i < |AtomBlocks(s)| ==> !Accepts(BlockEntry(s, Atom, AtomBlocks(s)[i]), fetchAll, isToday))
  {
    PostsEmptyIff(s, Rss, RssBlocks(s), fetchAll, isToday);
    PostsEmptyIff(s, Atom, AtomBlocks(s), fetchAll, isToday);
  }

  /** A document with neither wrapper start tag prints no post. */
  lemma NoWrappersNoPosts(s: string, fetchAll: bool, isToday: string -> bool)
    requires !Contains(s, OpenTag(Rss)) && !Contains(s, OpenTag(Atom))
    ensures FeedPosts(s, fetchAll, isToday) == []
  {
  }

  /** With `fetch_all` set the clock is never consulted, for either schema. */
  lemma FeedFetchAllIgnoresClock(s: string, today1: string -> bool, today2: string -> bool)
    ensures FeedPosts(s, true, today1) == FeedPosts(s, true, today2)
  {
    FetchAllIgnoresClock(s, Rss, RssBlocks(s), today1, today2);
    FetchAllIgnoresClock(s, Atom, AtomBlocks(s), today1, today2);
  }

  // ---------------------------------------------------------------------------
  // The scanner itself

  lemma AppendAssoc<T>(a: seq<T>, b: seq<T>, c: seq<T>)
    ensures (a + b) + c == a + (b + c)
  {
  }

  /** The loop's posts and cursor advance by one block per iteration. */
  lemma ScanStep(s: string, k: Schema, pos: nat, b: Span, fetchAll: bool, isToday: string -> bool)
    requires pos <= |s| && NextBlock(s, OpenTag(k), CloseTag(k), pos) == Some(b)
    ensures StopPos(s, OpenTag(k), CloseTag(k), pos) == StopPos(s, OpenTag(k), CloseTag(k), b.hi)
    ensures Posts(s, k, Blocks(s, OpenTag(k), CloseTag(k), pos), fetchAll, isToday) ==
      Emitted(s, k, b, fetchAll, isToday) + Posts(s, k, Blocks(s, OpenTag(k), CloseTag(k), b.hi), fetchAll, isToday)
  {
    var rest := Blocks(s, OpenTag(k), CloseTag(k), b.hi);
    assert Blocks(s, OpenTag(k), CloseTag(k), pos) == [b] + rest;
    assert ([b] + rest)[1..] == rest;
  }

  /** The two `find` calls at the head of each iteration: the start tag from
      the cursor, then the end tag from that start tag. */
  method FindBlock(content: string, k: Schema, pos: nat) returns (block: Option<Span>)
    requires pos <= |content|
    ensures block == NextBlock(content, OpenTag(k), CloseTag(k), pos)
  {
    var start := Find(content, OpenTag(k), pos);
    if start.None? {
      return None;
    }
    var startPos := start.value;
    var end := Find(content, CloseTag(k), startPos);
    if end.None? {
      return None;
    }
    var endPos := end.value + |CloseTag(k)|;
    return Some(Span(startPos, endPos));
  }

  /** The body of one iteration: cut the block out of the document, decode
      its three fields, and print them when all are non-empty and the date
      filter passes, raising `found`. */
  method EmitBlock(content: string, k: Schema, b: Span, fetchAll: bool, isToday: string -> bool,
                   posts0: seq<Post>, found0: bool)
    returns (posts: seq<Post>, found: bool)
    requires b.lo <= b.hi <= |content|
    ensures posts == posts0 + Emitted(content, k, b, fetchAll, isToday)
    ensures found == (found0 || |posts0| < |posts|)
  {
    posts, found := posts0, found0;
    var item := content[b.lo..b.hi];
    var title := ExtractElement(item, "<title>", "</title>").UnwrapOr("");
    var link := ExtractElement(item, "<link>", "</link>").UnwrapOr("");
    var date := ExtractElement(item, DateOpen(k), DateClose(k)).UnwrapOr("");
    if title != [] && link != [] && date != [] {
      if fetchAll || isToday(date) {
        posts := posts + [Post(k, Entry(title, link, date))];
        found := true;
      }
    }
  }

  /** One of the two `while let` loops of `parse_rss_feed`, for schema `k`,
      started at cursor `pos0`: it appends the posts it prints to `posts0` and
      raises `found` when it prints one. */
  method ScanSchema(content: string, k: Schema, pos0: nat, fetchAll: bool, isToday: string -> bool,
                    posts0: seq<Post>, found0: bool)
    returns (pos: nat, posts: seq<Post>, found: bool)
    requires pos0 <= |content|
    ensures pos == StopPos(content, OpenTag(k), CloseTag(k), pos0)
    ensures posts == posts0 + Posts(content, k, Blocks(content, OpenTag(k), CloseTag(k), pos0), fetchAll, isToday)
    ensures found <==> found0 || |posts| > |posts0|
  {
    ghost var all := Posts(content, k, Blocks(content, OpenTag(k), CloseTag(k), pos0), fetchAll, isToday);
    pos, posts, found := pos0, posts0, found0;
    while true
      invariant pos0 <= pos <= |content|
      invariant StopPos(content, OpenTag(k), CloseTag(k), pos) == StopPos(content, OpenTag(k), CloseTag(k), pos0)
      invariant posts + Posts(content, k, Blocks(content, OpenTag(k), CloseTag(k), pos), fetchAll, isToday) == posts0 + all
      invariant |posts0| <= |posts|
      invariant found == (found0 || |posts0| < |posts|)
      decreases |content| - pos
    {
      var block := FindBlock(content, k, pos);
      if block.None? {
        break;
      }
      ScanStep(content, k, pos, block.value, fetchAll, isToday);
      ghost var before := posts;
      posts, found := EmitBlock(content, k, block.value, fetchAll, isToday, posts, found);
      ghost var later := Posts(content, k, Blocks(content, OpenTag(k), CloseTag(k), block.value.hi), fetchAll, isToday);
      AppendAssoc(before, Emitted(content, k, block.value, fetchAll, isToday), later);
      pos := block.value.hi;
    }
  }

  /** `parse_rss_feed`: the posts it prints for `content`, whether it found
      any, and the "No posts retrieved from" notice naming `feedUrl` that it
      prints when it found none. */
  method ParseRssFeed(feedUrl: string, content: string, fetchAll: bool, isToday: string -> bool)
    returns (posts: seq<Post>, foundPosts: bool, notice: Option<string>)
    ensures posts == FeedPosts(content, fetchAll, isToday)
    ensures foundPosts <==> posts != []
    ensures notice == if foundPosts then None else Some(feedUrl)
  {
    ghost var rss := Posts(content, Rss, RssBlocks(content), fetchAll, isToday);
    ghost var atom := Posts(content, Atom, AtomBlocks(content), fetchAll, isToday);
    var pos: nat := 0;
    foundPosts := false;
    posts := [];
    var isRss := Contains(content, OpenTag(Rss));
    var isAtom := Contains(content, OpenTag(Atom));
    if isRss {
      pos, posts, foundPosts := ScanSchema(content, Rss, pos, fetchAll, isToday, posts, foundPosts);
      assert [] + rss == rss;
    }
    assert posts == rss && pos == RssStop(content);
    if isAtom {
      pos, posts, foundPosts := ScanSchema(content, Atom, pos, fetchAll, isToday, posts, foundPosts);
    } else {
      assert posts + atom == posts;
    }
    notice := if foundPosts then None else Some(feedUrl);
  }
}
