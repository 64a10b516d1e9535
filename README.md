# rust_rss feed scanner

`rust_rss` is a command-line reader that downloads RSS and Atom feeds and
prints their posts. This project models its scanner in `src/main.rs`.

- `extract_element` returns the text between the first occurrence of a start
  tag and the first end tag after it.
- `parse_rss_feed` walks the document with one cursor `pos`. It first cuts out
  `<item>…</item>` blocks, then `<entry>…</entry>` blocks. From each block it
  reads the title, the link and the date (`<pubDate>` for RSS, `<updated>` for
  Atom).
- A post is printed when all three fields are non-empty and either
  `fetch_all` is set or `is_today` accepts the date.
- When nothing was printed, a "No posts retrieved from" notice names the feed.

The model has four modules:

- `Text` (`text.dfy`): the first-occurrence search `Find`, Rust's `str::find`
  with an absolute offset, and `Contains`.
- `Extract` (`extract.dfy`): `ExtractElement` and what it returns.
- `Segment` (`segment.dfy`): one scanning loop described by functions.
  - `NextBlock` is one iteration.
  - `Blocks` is the list of blocks a loop yields.
  - `StopPos` is the cursor the loop leaves behind.
  - The lemmas state framing, order, no skipped start tag and the stop on a
    dangling tag.
- `Feed` (`feed.dfy`): decoding, the emission filter and the document-level
  specification `FeedPosts`.
  - The method `ParseRssFeed` keeps the source's imperative shape: a mutable
    cursor, a `found_posts` flag and an output sequence that grows by
    appending.
  - The method `ScanSchema` is one `while let` loop. It is proved against
    `StopPos`, `Blocks` and `Posts`.

Printing is modelled as the sequence of `Post` records. Each record holds the
schema, which selects the "Publication Date" or "Updated Date" label, and the
title, link and date. `is_today` is a parameter `isToday: string -> bool`.

Positions are character indices rather than UTF-8 byte offsets. Every tag the
scanner searches for is ASCII, so each `find` result lies on a character
boundary and both schemes select the same slices.

Where the code differs from what one might expect from the tag names, the
model follows the code:

- There is no CDATA stripping. A value keeps any `<![CDATA[ … ]]>` markers
  (`Extract.ExtractKeepsCdata`).
- A block's end tag is searched from the first character of its start tag
  (`rss_content[start_pos..]`), not from the end of it. For the wrapper tags
  actually used, the two searches find the same tag
  (`Segment.SearchFromStartTag`).
- The Atom loop resumes at the cursor the RSS loop left. The cursor is never
  reset, so an `<entry>` that begins before the end of the last complete
  `<item>` is never visited (`Feed.AtomResumesAtRssStop`).
- The same `is_today` is applied to RSS `<pubDate>` and Atom `<updated>`
  values. In the source it is an RFC 2822 parser, which usually rejects Atom's
  ISO 8601 dates. The model keeps a single predicate for both schemas.

## Model

| member | source | states |
|---|---|---|
| Text.Find | src/main.rs:46-48 | `s[from..].find(pat)` made absolute: a result is an occurrence at or after `from`; the full first-occurrence meaning is `FindFirstOccurrence` and `FindFirst` |
| Text.Contains | src/main.rs:42-43 | `str::contains`, characterised by `ContainsIff` |
| Text.FindFirstOccurrence | src/main.rs:23-25 | `find` returns the first occurrence of the pattern at or after the start index, and returns nothing only when there is none from there |
| Text.FindFirst | src/main.rs:46-48 | any index that is the first occurrence from the start index is what `find` returns |
| Text.FindSkip | src/main.rs:48 | starting the search later gives the same result when the skipped range holds no occurrence |
| Text.ContainsIff | src/main.rs:42-43 | `contains` holds exactly when the pattern occurs somewhere in the document |
| Extract.ExtractElement | src/main.rs:22-30 | no contract of its own; characterised by `ExtractValue`, `ExtractNoneIff`, `ExtractSomeIff`, `ExtractExcludesEnd`, `ExtractContiguous` and `ExtractComposed` |
| Extract.ExtractValue | src/main.rs:22-29 | a returned value is the exact, untrimmed slice from the end of the first start tag up to the first end tag after it |
| Extract.ExtractNoneIff | src/main.rs:23-29 | nothing is returned exactly when the start tag is absent, or when no end tag begins at or after the end of its first occurrence |
| Extract.ExtractSomeIff | src/main.rs:23-27 | a value is returned exactly when the start tag occurs and some end tag begins at or after the end of its first occurrence |
| Extract.ExtractExcludesEnd | src/main.rs:25-26 | a returned value never contains the end tag |
| Extract.ExtractContiguous | src/main.rs:24-26 | start tag, value and end tag form one contiguous substring, at the first occurrence of the start tag |
| Extract.ExtractComposed | src/main.rs:22-29 | a field written as prefix, start tag, value, end tag and suffix reads back as exactly that value, when the prefix holds no start tag and the value holds no end tag |
| Extract.ExtractMissingTag | src/main.rs:23-29 | for any content without the start tag, nothing is returned, whatever the end tag |
| Extract.ExtractKeepsCdata | src/main.rs:26 | an example of the read-back property: the title `<title><![CDATA[A]]></title>` comes back as `<![CDATA[A]]>`, markers in place |
| Segment.TagsApart | src/main.rs:46-48 | an occurrence of a `<`-led tag starting after a tag with no inner `<` starts after that tag ends |
| Segment.CloseAfterOpen | src/main.rs:48 | for a wrapper pair, the end tag is never found inside the start tag |
| Segment.SearchFromStartTag | src/main.rs:48 | searching the end tag from the start of the start tag finds the same tag as searching from its end |
| Segment.NextBlock | src/main.rs:46-49 | a block found by one iteration begins at or after the cursor and ends after it, so the cursor strictly increases |
| Segment.NextBlockFound | src/main.rs:46-50 | one iteration's block begins at the first start tag after the cursor and ends with the first end tag found from there |
| Segment.NextBlockStops | src/main.rs:46-68 | an iteration stops the loop exactly when no start tag follows the cursor, or no end tag follows the first start tag after it |
| Segment.Blocks | src/main.rs:46-69 | every block a loop yields lies inside the document and after the cursor it started from |
| Segment.StopPos | src/main.rs:65-68 | the cursor a loop leaves lies between its start and the end of the document, and no block is found from there |
| Segment.BlocksFramed | src/main.rs:46-50 | every block is a slice that begins with the start tag and ends with the first end tag after it; for wrapper tags the two tags do not overlap |
| Segment.BlocksOrdered | src/main.rs:46-65 | blocks come out in document order and never overlap |
| Segment.BlocksNoneSkipped | src/main.rs:46-47 | each block begins at the first start tag after the cursor; a later block begins at the first start tag after the previous block |
| Segment.StopAtLastBlock | src/main.rs:65-68 | the loop leaves the cursor at the end of the last block it yields, or where it started if it yields none |
| Segment.DanglingStops | src/main.rs:48-68 | a start tag with no end tag after it ends the loop: no block reaches past it and the cursor stops at or before it |
| Segment.NoOpenTagNoBlocks | src/main.rs:42-46 | without the start tag, a loop yields nothing and leaves the cursor unchanged |
| Feed.SchemaWrappers | src/main.rs:34-37 | both `<item>`/`</item>` and `<entry>`/`</entry>` have the wrapper shape that the segmenter lemmas need |
| Feed.Decode | src/main.rs:52-54 | the three `extract_element(...).unwrap_or_default()` calls of a block (lines 79-81 for Atom); a missing field is empty; its meaning per field is that of `ExtractElement` |
| Feed.Accepts | src/main.rs:56-57 | the emission test of both loops (also lines 83-84): three non-empty fields and `fetch_all` or `is_today` of the date; used by `PostsSound`, `PostsComplete` and `PostsEmptyIff` |
| Feed.Emitted | src/main.rs:56-63 | the post one block prints, or none; characterised by `PostsSound` and `PostsComplete` |
| Feed.Posts | src/main.rs:46-69 | the posts one loop prints for its blocks, in block order; characterised by `PostsSound`, `PostsComplete` and `PostsEmptyIff` |
| Feed.RssBlocks | src/main.rs:42-46 | the blocks the guarded RSS loop visits from cursor 0; related to `Blocks` by `GuardsChangeNothing` and framed by `SchemaBlocksFramed` |
| Feed.RssStop | src/main.rs:39-65 | the cursor the RSS loop leaves for the Atom loop; related to `StopPos` by `GuardsChangeNothing` and placed by `AtomResumesAtRssStop` |
| Feed.AtomBlocks | src/main.rs:72-73 | the blocks the guarded Atom loop visits from the RSS loop's cursor; related to `Blocks` by `GuardsChangeNothing` |
| Feed.FeedPosts | src/main.rs:33-101 | everything printed: RSS posts then Atom posts; characterised by `FeedEmptyIff`, `NoWrappersNoPosts` and `FeedFetchAllIgnoresClock`, and met by `ParseRssFeed` |
| Feed.PostsSound | src/main.rs:52-63 | every printed post has the loop's schema, comes from one of its blocks, has three non-empty fields and passes the date filter |
| Feed.PostsComplete | src/main.rs:52-63 | every block whose decoded entry is complete and passes the date filter is printed |
| Feed.PostsEmptyIff | src/main.rs:56-62 | a loop prints nothing exactly when none of its blocks holds a complete entry that passes the filter |
| Feed.FetchAllIgnoresClock | src/main.rs:57 | with `fetch_all` set, the posts printed do not depend on `is_today` |
| Feed.TodayOnlyIsFewer | src/main.rs:57 | every post printed without `fetch_all` is also printed with it |
| Feed.GuardsChangeNothing | src/main.rs:42-45 | the `contains` guards change nothing: a loop whose start tag is absent would yield nothing and leave the cursor where it was |
| Feed.AtomResumesAtRssStop | src/main.rs:65-73 | every RSS block ends at or before the cursor the RSS loop leaves, and every Atom block starts at or after it |
| Feed.SchemaBlocksFramed | src/main.rs:46-77 | every RSS block begins with `<item>` and ends with the first `</item>` after it, every Atom block likewise with `<entry>` and `</entry>`, and the two tags of a block do not overlap |
| Feed.RssDanglingStops | src/main.rs:46-68 | an `<item>` with no `</item>` after it ends the RSS loop: no RSS block reaches past it, and the cursor left for the Atom loop is at or before it |
| Feed.AtomDanglingStops | src/main.rs:73-94 | an `<entry>` at or after the RSS loop's cursor with no `</entry>` after it ends the Atom loop: no Atom block reaches past it |
| Feed.FeedEmptyIff | src/main.rs:98-100 | the feed prints no post exactly when neither loop meets a complete entry that passes the filter |
| Feed.NoWrappersNoPosts | src/main.rs:42-45 | a document with neither `<item>` nor `<entry>` prints no post |
| Feed.FeedFetchAllIgnoresClock | src/main.rs:57-84 | with `fetch_all` set, the whole output does not depend on `is_today`, for both schemas |
| Feed.ScanStep | src/main.rs:46-65 | each iteration prints the post of its block, if any, before those of the blocks after it, and leaves the final cursor unchanged |
| Feed.FindBlock | src/main.rs:46-49 | the two `find` calls of an iteration give the block that `NextBlock` describes |
| Feed.EmitBlock | src/main.rs:50-63 | one iteration appends its block's post exactly when the entry is complete and passes the filter, and raises `found_posts` exactly when it appends |
| Feed.ScanSchema | src/main.rs:45-70 | one loop leaves the cursor at `StopPos`, appends exactly the posts of the blocks it visits in order, and raises `found_posts` exactly when it appends one |
| Feed.ParseRssFeed | src/main.rs:33-101 | the posts printed are `FeedPosts` of the document, `found_posts` is set exactly when some post was printed, and the notice naming the feed follows exactly when none was |

## Left out

- `fetch_rss_feed` (src/main.rs:15-19) is not modelled: it is a network request through `reqwest`. The document is a parameter.
- `read_feeds_from_json` (src/main.rs:104-120) is not modelled: it is file I/O and JSON decoding through `serde_json`. It lists `rss_feeds` before `other_feeds`.
- `main` (src/main.rs:131-144) is not modelled: it parses arguments and loops over feeds, printing errors. It passes `fetch_all || fetch_today` to the scanner, so `-t` behaves like `-a`. `fetchAll` is a parameter of the model.
- The body of `is_today` (src/main.rs:123-129) is not modelled: it is RFC 2822 date parsing by `chrono` against the wall clock `Utc::now()`. It becomes the caller-supplied predicate `isToday`.
- The clock is frozen for one `parse_rss_feed` call. The source reads `Utc::now()` afresh for each block, so a scan that crosses UTC midnight can accept a date for one block and reject the same date for a later one. The model's `isToday` is one function for the whole call.
- Terminal output is not modelled: the `colored` colours and bold text, the three-line layout and the "Fetching" line. Printed posts become `Post` records, and the notice becomes an `Option` naming the feed.
- CDATA stripping, entry counts and timeouts do not exist in the source, so the model has none.
- The model does not capture UTF-8 byte offsets, and slicing never panics in it. All tags are ASCII, so every offset the source slices at lies on a character boundary.
- Segment.BlocksFramed: the non-overlap clause is stated only for wrapper-shaped tags (`WrapperPair`); `Feed.SchemaWrappers` shows that both schemas' tags have that shape.
- Segment.DanglingStops: likewise requires a wrapper-shaped tag pair, which both schemas use.
