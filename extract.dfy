/** The field extractor `extract_element`: the text strictly between the first
    start tag and the first end tag after it. */
module Extract {
  import opened Text

  /** `x` sits right after the start tag found at `i`, and the first end tag
      after that start tag begins right after `x`. */
  predicate Enclosed(content: string, startTag: string, endTag: string, i: nat, x: string) {
    var a := i + |startTag|;
    a + |x| <= |content| && content[a..a + |x|] == x && FirstFrom(content, endTag, a, a + |x|)
  }

  function ExtractElement(content: string, startTag: string, endTag: string): Option<string> {
    match Find(content, startTag, 0)
    case None => None
    case Some(start) =>
      var startPos := start + |startTag|;
      match Find(content, endTag, startPos)
      case None => None
      case Some(end) => Some(content[startPos..end])
  }

  /** A value is the slice after the first start tag up to the first end tag
      after it. */
  lemma ExtractValue(content: string, startTag: string, endTag: string)
    requires ExtractElement(content, startTag, endTag).Some?
    ensures exists i :: (FirstFrom(content, startTag, 0, i) &&
      Enclosed(content, startTag, endTag, i, ExtractElement(content, startTag, endTag).value))
  {
    FindFirstOccurrence(content, startTag, 0);
    var i := Find(content, startTag, 0).value;
    var a := i + |startTag|;
    FindFirstOccurrence(content, endTag, a);
    var b := Find(content, endTag, a).value;
    var x := content[a..b];
    assert ExtractElement(content, startTag, endTag).value == x;
    assert Enclosed(content, startTag, endTag, i, x);
  }

  /** Nothing comes back exactly when the start tag is absent, or when no end
      tag follows its first occurrence. */
  lemma ExtractNoneIff(content: string, startTag: string, endTag: string)
    ensures ExtractElement(content, startTag, endTag).None? <==>
      AbsentFrom(content, startTag, 0) ||
      exists i :: FirstFrom(content, startTag, 0, i) && AbsentFrom(content, endTag, i + |startTag|)
  {
    FindFirstOccurrence(content, startTag, 0);
    match Find(content, startTag, 0)
    case None =>
    case Some(i) =>
      FindFirstOccurrence(content, endTag, i + |startTag|);
      forall i' | FirstFrom(content, startTag, 0, i') ensures i' == i {
        FindFirst(content, startTag, 0, i');
      }
  }

  /** A value comes back exactly when the start tag occurs and some end tag
      begins at or after the end of its first occurrence. */
  lemma ExtractSomeIff(content: string, startTag: string, endTag: string)
    ensures ExtractElement(content, startTag, endTag).Some? <==>
      exists i :: FirstFrom(content, startTag, 0, i) &&
        exists j :: i + |startTag| <= j && OccursAt(content, endTag, j)
  {
    FindFirstOccurrence(content, startTag, 0);
    match Find(content, startTag, 0)
    case None =>
    case Some(i) =>
      FindFirstOccurrence(content, endTag, i + |startTag|);
      forall i' | FirstFrom(content, startTag, 0, i') ensures i' == i {
        FindFirst(content, startTag, 0, i');
      }
  }

  /** The value holds no end tag of its own: the first end tag after the start
      tag is the one that closes the field. */
  lemma ExtractExcludesEnd(content: string, startTag: string, endTag: string)
    requires |endTag| > 0
    requires ExtractElement(content, startTag, endTag).Some?
    ensures !Contains(ExtractElement(content, startTag, endTag).value, endTag)
  {
    FindFirstOccurrence(content, startTag, 0);
    var a := Find(content, startTag, 0).value + |startTag|;
    FindFirstOccurrence(content, endTag, a);
    var b := Find(content, endTag, a).value;
    var x := content[a..b];
    assert ExtractElement(content, startTag, endTag).value == x;
    forall k | OccursAt(x, endTag, k) ensures false {
      OccursInSlice(content, endTag, a, b, k);
    }
    ContainsIff(x, endTag);
  }

  /** Start tag, value and end tag lie next to each other in the content, the
      start tag being its first occurrence. */
  lemma ExtractContiguous(content: string, startTag: string, endTag: string)
    requires ExtractElement(content, startTag, endTag).Some?
    ensures exists i :: (FirstFrom(content, startTag, 0, i) &&
      OccursAt(content, startTag + ExtractElement(content, startTag, endTag).value + endTag, i))
  {
    FindFirstOccurrence(content, startTag, 0);
    var i := Find(content, startTag, 0).value;
    var a := i + |startTag|;
    var b := Find(content, endTag, a).value;
    var x := content[a..b];
    assert ExtractElement(content, startTag, endTag).value == x;
    Adjacent(content, startTag, x, endTag, i);
  }

  /** A field written out as `pre + startTag + x + endTag + post` is read back as
      exactly `x`, untrimmed and with any markup inside it (CDATA markers
      included) left in place, provided `pre` holds no start tag and `x` holds
      no end tag. */
  lemma ExtractComposed(pre: string, startTag: string, x: string, endTag: string, post: string)
    requires forall j :: 0 <= j < |pre| ==> !OccursAt(pre + startTag + x + endTag + post, startTag, j)
    requires forall j :: |pre| + |startTag| <= j < |pre| + |startTag| + |x| ==>
      !OccursAt(pre + startTag + x + endTag + post, endTag, j)
    ensures ExtractElement(pre + startTag + x + endTag + post, startTag, endTag) == Some(x)
  {
    var content := pre + startTag + x + endTag + post;
    var a, b := |pre| + |startTag|, |pre| + |startTag| + |x|;
    assert content[|pre|..a] == startTag;
    assert content[a..b] == x;
    assert content[b..b + |endTag|] == endTag;
    FindFirst(content, startTag, 0, |pre|);
    FindFirst(content, endTag, a, b);
  }

  /** A field whose start tag is absent yields nothing, whatever the end tag. */
  lemma ExtractMissingTag(content: string, startTag: string, endTag: string)
    requires !Contains(content, startTag)
    ensures ExtractElement(content, startTag, endTag) == None
  {
    ContainsIff(content, startTag);
    ExtractNoneIff(content, startTag, endTag);
  }

  /** An example of `ExtractComposed`: a CDATA-wrapped title comes back with
      its markers, since nothing strips them. */
  lemma ExtractKeepsCdata()
    ensures ExtractElement("<title>" + "<![CDATA[A]]>" + "</title>", "<title>", "</title>") == Some("<![CDATA[A]]>")
  {
    var s := "<title>" + "<![CDATA[A]]>" + "</title>";
    assert s == "" + "<title>" + "<![CDATA[A]]>" + "</title>" + "";
    MissingChar(s, "</title>", 1, 21);
    ExtractComposed("", "<title>", "<![CDATA[A]]>", "</title>", "");
  }
}
