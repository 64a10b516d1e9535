/** The entry segmenter inside both loops of `parse_rss_feed`: from a cursor,
    find the wrapper start tag, then the wrapper end tag from that start tag,
    yield the block between them (tags included) and move the cursor past it.
    The functions here describe what one loop does from a given cursor; the
    loops themselves are the method `Feed.ScanSchema`. */
module Segment {
  import opened Text

  /** A block of the document: the half-open index range `[lo, hi)`. */
  datatype Span = Span(lo: nat, hi: nat)

  /** No `<` after the first character of a tag. */
  predicate InnerLtFree(tag: string) {
    forall t :: 1 <= t < |tag| ==> tag[t] != '<'
  }

  /** The shape shared by `<item>`/`</item>` and `<entry>`/`</entry>`: both
      begin with `<`, differ in their second character and hold no other `<`. */
  predicate WrapperPair(open: string, close: string) {
    |open| >= 2 && |close| >= 2 && open[0] == '<' && close[0] == '<' && open[1] != close[1] &&
    InnerLtFree(open) && InnerLtFree(close)
  }

  /** An occurrence of a `<`-led tag that starts after an occurrence of a tag
      with no inner `<` starts after its end: such tags never overlap. */
  lemma TagsApart(s: string, p: string, q: string, i: int, j: int)
    requires InnerLtFree(p) && |q| > 0 && q[0] == '<'
    requires OccursAt(s, p, i) && OccursAt(s, q, j) && i < j
    ensures i + |p| <= j
  {
    OccursAtChars(s, p, i);
    OccursAtChar(s, q, j, 0);
  }

  /** The end tag is never found inside the start tag. */
  lemma CloseAfterOpen(s: string, open: string, close: string, lo: nat, c: int)
    requires WrapperPair(open, close)
    requires OccursAt(s, open, lo) && OccursAt(s, close, c) && lo <= c
    ensures lo + |open| <= c
  {
    OccursAtChar(s, open, lo, 1);
    OccursAtChar(s, close, c, 1);
    if c != lo {
      TagsApart(s, open, close, lo, c);
    }
  }

  /** The loops search for the end tag from the first character of the start
      tag; for a wrapper pair that finds the same tag as searching from the end
      of the start tag. */
  lemma SearchFromStartTag(s: string, open: string, close: string, lo: nat)
    requires WrapperPair(open, close) && OccursAt(s, open, lo)
    ensures Find(s, close, lo) == Find(s, close, lo + |open|)
  {
    forall c | lo <= c < lo + |open| ensures !OccursAt(s, close, c) {
      if OccursAt(s, close, c) {
        CloseAfterOpen(s, open, close, lo, c);
      }
    }
    FindSkip(s, close, lo, lo + |open|);
  }

  /** The block begins with the start tag, and its end tag is the first one
      found from its start. */
  predicate Framed(s: string, open: string, close: string, b: Span) {
    |close| <= b.hi <= |s| &&
    OccursAt(s, open, b.lo) &&
    FirstFrom(s, close, b.lo, b.hi - |close|)
  }

  /** One iteration from cursor `pos`: the block it yields, or nothing when the
      loop stops there. The block starts at or after the cursor and ends after
      it, so the cursor moves forward. */
  function NextBlock(s: string, open: string, close: string, pos: nat): (r: Option<Span>)
    requires |close| > 0 && pos <= |s|
    ensures r.Some? ==> pos <= r.value.lo < r.value.hi <= |s|
  {
    match Find(s, open, pos)
    case None => None
    case Some(start) =>
      match Find(s, close, start)
      case None => None
      case Some(end) => Some(Span(start, end + |close|))
  }

  /** What one iteration finds: the first start tag after the cursor, and the
      first end tag from there. */
  lemma NextBlockFound(s: string, open: string, close: string, pos: nat)
    requires |close| > 0 && pos <= |s| && NextBlock(s, open, close, pos).Some?
    ensures FirstFrom(s, open, pos, NextBlock(s, open, close, pos).value.lo)
    ensures Framed(s, open, close, NextBlock(s, open, close, pos).value)
  {
    FindFirstOccurrence(s, open, pos);
    var start := Find(s, open, pos).value;
    FindFirstOccurrence(s, close, start);
  }

  /** An iteration ends the loop exactly when no start tag follows the cursor,
      or no end tag follows the first start tag after it. */
  lemma NextBlockStops(s: string, open: string, close: string, pos: nat)
    requires |close| > 0 && pos <= |s|
    ensures NextBlock(s, open, close, pos).None? <==>
      AbsentFrom(s, open, pos) ||
      exists d :: FirstFrom(s, open, pos, d) && AbsentFrom(s, close, d)
  {
    FindFirstOccurrence(s, open, pos);
    match Find(s, open, pos)
    case None =>
    case Some(start) =>
      FindFirstOccurrence(s, close, start);
      forall d | FirstFrom(s, open, pos, d) ensures d == start {
        FindFirst(s, open, pos, d);
      }
  }

  /** The blocks one loop yields, in order, when started at cursor `pos`. */
  function Blocks(s: string, open: string, close: string, pos: nat): (bs: seq<Span>)
    requires |close| > 0 && pos <= |s|
    ensures forall i :: 0 <= i < |bs| ==> pos <= bs[i].lo < bs[i].hi <= |s|
    decreases |s| - pos
  {
    match NextBlock(s, open, close, pos)
    case None => []
    case Some(b) => [b] + Blocks(s, open, close, b.hi)
  }

  /** The cursor one loop leaves behind when started at `pos`; no block is
      found from there. */
  function StopPos(s: string, open: string, close: string, pos: nat): (p: nat)
    requires |close| > 0 && pos <= |s|
    ensures pos <= p <= |s| && NextBlock(s, open, close, p).None?
    decreases |s| - pos
  {
    match NextBlock(s, open, close, pos)
    case None => pos
    case Some(b) => StopPos(s, open, close, b.hi)
  }

  /** Every block is a slice of the document that begins with the start tag
      and ends with the first end tag after it; for a wrapper pair the two tags
      do not overlap. */
  lemma {:induction false} BlocksFramed(s: string, open: string, close: string, pos: nat)
    requires |close| > 0 && pos <= |s|
    ensures forall i :: 0 <= i < |Blocks(s, open, close, pos)| ==> Framed(s, open, close, Blocks(s, open, close, pos)[i])
    ensures WrapperPair(open, close) ==>
      forall i :: 0 <= i < |Blocks(s, open, close, pos)| ==>
        Blocks(s, open, close, pos)[i].lo + |open| + |close| <= Blocks(s, open, close, pos)[i].hi
    decreases |s| - pos
  {
    match NextBlock(s, open, close, pos)
    case None =>
    case Some(b) =>
      NextBlockFound(s, open, close, pos);
      if WrapperPair(open, close) {
        CloseAfterOpen(s, open, close, b.lo, b.hi - |close|);
      }
      BlocksFramed(s, open, close, b.hi);
      var bs, rest := Blocks(s, open, close, pos), Blocks(s, open, close, b.hi);
      assert bs == [b] + rest;
      forall i | 0 < i < |bs| ensures bs[i] == rest[i - 1] {
      }
  }

  /** Blocks come out in document order and never overlap. */
  lemma {:induction false} BlocksOrdered(s: string, open: string, close: string, pos: nat)
    requires |close| > 0 && pos <= |s|
    ensures forall i, j :: 0 <= i < j < |Blocks(s, open, close, pos)| ==>
      Blocks(s, open, close, pos)[i].hi <= Blocks(s, open, close, pos)[j].lo
    decreases |s| - pos
  {
    match NextBlock(s, open, close, pos)
    case None =>
    case Some(b) =>
      BlocksOrdered(s, open, close, b.hi);
      var bs, rest := Blocks(s, open, close, pos), Blocks(s, open, close, b.hi);
      assert bs == [b] + rest;
      forall i | 0 < i < |bs| ensures bs[i] == rest[i - 1] {
      }
  }

  /** No start tag is skipped: the first block begins at the first start tag
      after the cursor, and each later one at the first start tag after the end
      of the block before it. */
  lemma {:induction false} BlocksNoneSkipped(s: string, open: string, close: string, pos: nat)
    requires |close| > 0 && pos <= |s|
    ensures |Blocks(s, open, close, pos)| > 0 ==> FirstFrom(s, open, pos, Blocks(s, open, close, pos)[0].lo)
    ensures forall i :: 0 < i < |Blocks(s, open, close, pos)| ==>
      FirstFrom(s, open, Blocks(s, open, close, pos)[i - 1].hi, Blocks(s, open, close, pos)[i].lo)
    decreases |s| - pos
  {
    match NextBlock(s, open, close, pos)
    case None =>
    case Some(b) =>
      NextBlockFound(s, open, close, pos);
      BlocksNoneSkipped(s, open, close, b.hi);
      var bs, rest := Blocks(s, open, close, pos), Blocks(s, open, close, b.hi);
      assert bs == [b] + rest;
      forall i | 0 < i < |bs| ensures bs[i] == rest[i - 1] {
      }
  }

  /** The loop leaves the cursor at the end of the last block it yields, or
      where it started when it yields none. */
  lemma {:induction false} StopAtLastBlock(s: string, open: string, close: string, pos: nat)
    requires |close| > 0 && pos <= |s|
    ensures Blocks(s, open, close, pos) == [] ==> StopPos(s, open, close, pos) == pos
    ensures Blocks(s, open, close, pos) != [] ==>
      StopPos(s, open, close, pos) == Blocks(s, open, close, pos)[|Blocks(s, open, close, pos)| - 1].hi
    decreases |s| - pos
  {
    match NextBlock(s, open, close, pos)
    case None =>
    case Some(b) =>
      StopAtLastBlock(s, open, close, b.hi);
      var bs, rest := Blocks(s, open, close, pos), Blocks(s, open, close, b.hi);
      assert bs == [b] + rest;
      if rest != [] {
        assert bs[|bs| - 1] == rest[|rest| - 1];
      }
  }

  /** A start tag with no end tag after it stops the loop: every block the loop
      yields ends at or before that tag, and so does the cursor it leaves. */
  lemma {:induction false} DanglingStops(s: string, open: string, close: string, pos: nat, d: nat)
    requires WrapperPair(open, close)
    requires pos <= d && OccursAt(s, open, d) && AbsentFrom(s, close, d)
    ensures forall i :: 0 <= i < |Blocks(s, open, close, pos)| ==> Blocks(s, open, close, pos)[i].hi <= d
    ensures StopPos(s, open, close, pos) <= d
    decreases |s| - pos
  {
    match NextBlock(s, open, close, pos)
    case None =>
    case Some(b) =>
      NextBlockFound(s, open, close, pos);
      var c := b.hi - |close|;
      assert c < d;
      TagsApart(s, close, open, c, d);
      DanglingStops(s, open, close, b.hi, d);
      var bs, rest := Blocks(s, open, close, pos), Blocks(s, open, close, b.hi);
      assert bs == [b] + rest;
      forall i | 0 < i < |bs| ensures bs[i] == rest[i - 1] {
      }
  }

  /** Without the start tag anywhere, a loop yields nothing and leaves the
      cursor where it was. */
  lemma NoOpenTagNoBlocks(s: string, open: string, close: string, pos: nat)
    requires |close| > 0 && pos <= |s| && !Contains(s, open)
    ensures Blocks(s, open, close, pos) == [] && StopPos(s, open, close, pos) == pos
  {
    FindFirstOccurrence(s, open, 0);
    assert NextBlock(s, open, close, pos).None?;
  }
}
