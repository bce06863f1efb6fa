/**
 * The text clean-up the scrape tool applies to a fetched page, written out
 * as the regular expressions it uses behave:
 *   - `/<script[^>]*>.*?<\/script>/gi` and the same for `style` remove whole blocks;
 *   - `/<[^>]*>/g` turns every remaining tag into one space;
 *   - `/\s+/g` turns every run of whitespace into one space;
 *   - then `trim()` and `slice(0, limit)`.
 * `/i` without the `u` flag folds ASCII letters only, and `.` does not
 * cross a line terminator.
 */
module HtmlText {
  import opened Wrappers
  import opened JsText

  /** `s` starts with `lit` (given in lower case), ASCII letters compared without case. */
  predicate StartsWithCI(s: string, lit: string)
  {
    |lit| <= |s| && ToLower(s[..|lit|]) == lit
  }

  /** The offset of the first `c` in `s`. */
  function IndexOf(s: string, c: char): (r: Option<nat>)
    ensures r.Some? ==> r.value < |s| && s[r.value] == c && c !in s[..r.value]
    ensures r.None? ==> c !in s
  {
    if s == [] then None
    else if s[0] == c then Some(0)
    else
      match IndexOf(s[1..], c)
      case None => None
      case Some(k) =>
        assert s[..k + 1] == [s[0]] + s[1..][..k];
        Some(k + 1)
  }

  /**
   * `.*?` followed by `close`: the offset of the first place where `close`
   * starts, provided no line terminator comes before it.
   */
  function LazyUntil(s: string, close: string): (r: Option<nat>)
    requires close != [] && !IsLineTerminator(close[0])
    ensures r.Some? ==> r.value + |close| <= |s|
  {
    if StartsWithCI(s, close) then Some(0)
    else if s == [] || IsLineTerminator(s[0]) then None
    else
      match LazyUntil(s[1..], close)
      case None => None
      case Some(k) => Some(k + 1)
  }

  /**
   * The lazy match stops where `close` starts, at the earliest such place,
   * and never crosses a line terminator.
   */
  lemma {:induction false} LazyUntilIsEarliest(s: string, close: string)
    requires close != [] && !IsLineTerminator(close[0])
    ensures var r := LazyUntil(s, close);
            r.Some? ==> StartsWithCI(s[r.value..], close)
    ensures var r := LazyUntil(s, close);
            r.Some? ==> forall k :: 0 <= k < r.value ==> !IsLineTerminator(s[k]) && !StartsWithCI(s[k..], close)
  {
    if StartsWithCI(s, close) {
      assert s[0..] == s;
    } else if s != [] && !IsLineTerminator(s[0]) {
      LazyUntilIsEarliest(s[1..], close);
      match LazyUntil(s[1..], close)
      case None =>
      case Some(k) =>
        assert s[k + 1..] == s[1..][k..];
        forall j | 0 <= j < k + 1
          ensures !IsLineTerminator(s[j]) && !StartsWithCI(s[j..], close)
        {
          if j > 0 {
            assert s[j] == s[1..][j - 1];
            assert s[j..] == s[1..][j - 1..];
          }
        }
    }
  }

  /**
   * The other direction: a `close` that starts at `k`, with no line
   * terminator before it, is found, at `k` or earlier.
   */
  lemma {:induction false} LazyUntilFindsClose(s: string, close: string, k: nat)
    requires close != [] && !IsLineTerminator(close[0])
    requires k <= |s| && StartsWithCI(s[k..], close)
    requires forall j :: 0 <= j < k ==> !IsLineTerminator(s[j])
    ensures LazyUntil(s, close).Some? && LazyUntil(s, close).value <= k
  {
    if !StartsWithCI(s, close) && k > 0 {
      var t := s[1..];
      assert t[k - 1..] == s[k..];
      assert forall j :: 0 <= j < k - 1 ==> t[j] == s[j + 1];
      LazyUntilFindsClose(t, close, k - 1);
    }
  }

  /** A match of `<tag[^>]*>.*?<\/tag>` at the start of a string: where the inner text starts and ends, and where the match ends. */
  datatype Block = Block(innerStart: nat, innerEnd: nat, end: nat)

  function BlockAt(s: string, tag: string): (b: Option<Block>)
    ensures b.Some? ==> 0 < b.value.innerStart <= b.value.innerEnd < b.value.end <= |s|
  {
    var open := "<" + tag;
    if !StartsWithCI(s, open) then None
    else
      match IndexOf(s[|open|..], '>')
      case None => None
      case Some(g) =>
        var start := |open| + g + 1;
        match LazyUntil(s[start..], "</" + tag + ">")
        case None => None
        case Some(k) => Some(Block(start, start + k, start + k + |tag| + 3))
  }

  /** `s.replace(/<tag[^>]*>.*?<\/tag>/gi, '')`. */
  function RemoveBlocks(s: string, tag: string): (r: string)
    ensures |r| <= |s|
    decreases |s|
  {
    if s == [] then []
    else
      match BlockAt(s, tag)
      case Some(b) => RemoveBlocks(s[b.end..], tag)
      case None => [s[0]] + RemoveBlocks(s[1..], tag)
  }

  /**
   * `s.replace(/<[^>]*>/g, ' ')`. A '<' with no '>' after it cannot start
   * a tag, and neither can any '<' after it, so the rest stays as it is.
   */
  function ReplaceTags(s: string): (r: string)
    ensures |r| <= |s|
    decreases |s|
  {
    if s == [] then []
    else if s[0] == '<' then
      match IndexOf(s[1..], '>')
      case Some(g) => " " + ReplaceTags(s[g + 2..])
      case None => s
    else [s[0]] + ReplaceTags(s[1..])
  }

  /** No two whitespace characters side by side. */
  predicate NoDoubleSpace(s: string)
  {
    forall i :: 0 <= i < |s| - 1 ==> !(IsSpace(s[i]) && IsSpace(s[i + 1]))
  }

  /** The only whitespace character present is the plain space. */
  predicate OnlyPlainSpaces(s: string)
  {
    forall i :: 0 <= i < |s| && IsSpace(s[i]) ==> s[i] == ' '
  }

  /** `s.replace(/\s+/g, ' ')`. */
  function CollapseSpaces(s: string): (r: string)
    ensures NoDoubleSpace(r) && OnlyPlainSpaces(r)
    ensures |r| <= |s|
    ensures r == [] <==> s == []
    ensures r != [] ==> (IsSpace(r[0]) <==> IsSpace(s[0]))
    decreases |s|
  {
    if s == [] then []
    else if IsSpace(s[0]) then
      var rest := s[LeadingSpaces(s)..];
      [' '] + CollapseSpaces(rest)
    else [s[0]] + CollapseSpaces(s[1..])
  }

  /** The character itself, or nothing for whitespace. */
  function Kept(c: char): string
  {
    if IsSpace(c) then [] else [c]
  }

  /** The non-whitespace characters of `s`, in order. */
  function NonSpace(s: string): string
  {
    if s == [] then [] else Kept(s[0]) + NonSpace(s[1..])
  }

  /** A slice of a string keeps both shape properties. */
  lemma SliceKeepsShape(c: string, a: nat, b: nat)
    requires a <= b <= |c|
    requires NoDoubleSpace(c) && OnlyPlainSpaces(c)
    ensures NoDoubleSpace(c[a..b]) && OnlyPlainSpaces(c[a..b])
  {
    var n := c[a..b];
    forall i | 0 <= i < |n| - 1 ensures !(IsSpace(n[i]) && IsSpace(n[i + 1])) {
      assert n[i] == c[a + i] && n[i + 1] == c[a + i + 1];
    }
    forall i | 0 <= i < |n| ensures IsSpace(n[i]) ==> n[i] == ' ' {
      assert n[i] == c[a + i];
    }
  }

  /** Whitespace collapsed, then trimmed. */
  function Tidy(text: string): (r: string)
    ensures NoDoubleSpace(r) && OnlyPlainSpaces(r)
    ensures |r| <= |text|
    ensures r != [] ==> !IsSpace(r[0]) && !IsSpace(r[|r| - 1])
  {
    TrimKeepsShape(CollapseSpaces(text));
    Trim(CollapseSpaces(text))
  }

  /** Trimming a string of the collapsed shape keeps the shape. */
  lemma TrimKeepsShape(c: string)
    requires NoDoubleSpace(c) && OnlyPlainSpaces(c)
    ensures NoDoubleSpace(Trim(c)) && OnlyPlainSpaces(Trim(c))
  {
    var a := LeadingSpaces(c);
    SliceKeepsShape(c, a, a + |Trim(c)|);
  }

  /** The markup removed: script and style blocks dropped, then every tag turned into a space. */
  function StripMarkup(html: string): (r: string)
    ensures |r| <= |html|
    ensures NoTagLeft(r)
  {
    ReplaceTagsLeavesNoTag(RemoveBlocks(RemoveBlocks(html, "script"), "style"));
    ReplaceTags(RemoveBlocks(RemoveBlocks(html, "script"), "style"))
  }

  /** The page text before truncation. */
  function Normalize(html: string): (r: string)
    ensures |r| <= |html|
    ensures NoDoubleSpace(r) && OnlyPlainSpaces(r)
    ensures r != [] ==> !IsSpace(r[0]) && !IsSpace(r[|r| - 1])
    ensures NonSpace(r) == NonSpace(StripMarkup(html))
  {
    TidyKeepsText(StripMarkup(html));
    Tidy(StripMarkup(html))
  }

  /** The cleaned page text, cut to `limit` characters. */
  function CleanContent(html: string, limit: nat): (r: string)
    ensures |r| <= limit
    ensures |r| == if |Normalize(html)| <= limit then |Normalize(html)| else limit
    ensures IsPrefix(r, Normalize(html))
    ensures NoDoubleSpace(r) && OnlyPlainSpaces(r)
    ensures r != [] ==> !IsSpace(r[0])
  {
    var n := Normalize(html);
    var r := Take(n, limit);
    SliceKeepsShape(n, 0, |r|);
    assert r == n[0..|r|];
    r
  }

  /** No match of the block pattern starts at any position of `s`. */
  predicate NoBlockIn(s: string, tag: string)
  {
    forall p :: 0 <= p < |s| ==> BlockAt(s[p..], tag).None?
  }

  /** `p` is where the leftmost match of the block pattern starts. */
  predicate LeftmostBlock(s: string, tag: string, p: nat)
  {
    p < |s| && BlockAt(s[p..], tag).Some? && forall q :: 0 <= q < p ==> BlockAt(s[q..], tag).None?
  }

  /** The inner text of the match starting at `p`. */
  function InnerAt(s: string, tag: string, p: nat): string
    requires p <= |s| && BlockAt(s[p..], tag).Some?
  {
    var b := BlockAt(s[p..], tag).value;
    s[p..][b.innerStart..b.innerEnd]
  }

  /**
   * The inner text of the first `<tag[^>]*>.*?<\/tag>` match, searching from
   * each position in turn: none iff no position starts a match, otherwise
   * the inner text of the leftmost match.
   */
  function FirstBlockInner(s: string, tag: string): (r: Option<string>)
    ensures r.None? <==> NoBlockIn(s, tag)
    ensures forall p :: LeftmostBlock(s, tag, p) ==> r == Some(InnerAt(s, tag, p))
    ensures r.Some? ==> Contains(s, r.value)
  {
    if s == [] then None
    else
      match BlockAt(s, tag)
      case Some(b) =>
        MatchAtStart(s, tag);
        SliceContained(s, b.innerStart, b.innerEnd);
        Some(s[b.innerStart..b.innerEnd])
      case None =>
        NoMatchAtStart(s, tag);
        FirstBlockInner(s[1..], tag)
  }

  /** A match at position 0 is the leftmost one. */
  lemma MatchAtStart(s: string, tag: string)
    requires s != [] && BlockAt(s, tag).Some?
    ensures !NoBlockIn(s, tag)
    ensures forall p :: LeftmostBlock(s, tag, p) ==>
              InnerAt(s, tag, p) == s[BlockAt(s, tag).value.innerStart..BlockAt(s, tag).value.innerEnd]
  {
    assert s[0..] == s;
    forall p | LeftmostBlock(s, tag, p)
      ensures InnerAt(s, tag, p) == s[BlockAt(s, tag).value.innerStart..BlockAt(s, tag).value.innerEnd]
    {
    }
  }

  /** Without a match at position 0, the search goes on from position 1 with every position shifted by one. */
  lemma NoMatchAtStart(s: string, tag: string)
    requires s != [] && BlockAt(s, tag).None?
    ensures NoBlockIn(s, tag) <==> NoBlockIn(s[1..], tag)
    ensures forall p: nat :: LeftmostBlock(s, tag, p) ==>
              p >= 1 && LeftmostBlock(s[1..], tag, p - 1) && InnerAt(s, tag, p) == InnerAt(s[1..], tag, p - 1)
  {
    var t := s[1..];
    assert s[0..] == s;
    assert forall p :: 1 <= p <= |s| ==> s[p..] == t[p - 1..];
    if NoBlockIn(t, tag) {
      forall p | 0 <= p < |s| ensures BlockAt(s[p..], tag).None? {
        if p > 0 { assert s[p..] == t[p - 1..]; }
      }
    }
    forall p: nat | LeftmostBlock(s, tag, p)
      ensures p >= 1 && LeftmostBlock(t, tag, p - 1) && InnerAt(s, tag, p) == InnerAt(t, tag, p - 1)
    {
      assert p != 0;
      forall q | 0 <= q < p - 1 ensures BlockAt(t[q..], tag).None? {
        assert t[q..] == s[q + 1..];
      }
    }
  }

  const NoTitle := "No title found"

  /** `html.match(/<title[^>]*>(.*?)<\/title>/i)`, its group trimmed, or the fixed fallback. */
  function ExtractTitle(html: string): (r: string)
    ensures NoBlockIn(html, "title") ==> r == NoTitle
    ensures forall p :: LeftmostBlock(html, "title", p) ==> r == Trim(InnerAt(html, "title", p))
    ensures !NoBlockIn(html, "title") ==>
              Contains(html, r) && (r != [] ==> !IsSpace(r[0]) && !IsSpace(r[|r| - 1]))
  {
    match FirstBlockInner(html, "title")
    case Some(t) =>
      TrimContained(html, t);
      Trim(t)
    case None => NoTitle
  }

  // ---------------------------------------------------------------------
  // Properties

  lemma {:induction false} NonSpaceAppend(a: string, b: string)
    ensures NonSpace(a + b) == NonSpace(a) + NonSpace(b)
  {
    if a == [] {
      assert a + b == b;
    } else {
      NonSpaceAppend(a[1..], b);
      var k := Kept(a[0]);
      FirstOfAppend(a, b);
      assert NonSpace(a + b) == k + NonSpace(a[1..] + b);
      assert NonSpace(a) == k + NonSpace(a[1..]);
      AppendAssociates(k, NonSpace(a[1..]), NonSpace(b));
    }
  }

  lemma FirstOfAppend(a: string, b: string)
    requires a != []
    ensures (a + b)[0] == a[0] && (a + b)[1..] == a[1..] + b
  {
  }

  lemma SplitTwo(s: string, a: nat)
    requires a <= |s|
    ensures s == s[0..a] + s[a..]
  {
  }

  lemma SplitThree(s: string, a: nat, e: nat)
    requires a <= e <= |s|
    ensures s == s[0..a] + (s[a..e] + s[e..|s|])
  {
  }

  lemma EmptyIsNeutral(p: string)
    ensures [] + (p + []) == p
  {
  }

  lemma AppendAssociates(p: string, q: string, r: string)
    ensures p + (q + r) == (p + q) + r
  {
  }

  lemma {:induction false} NonSpaceOfSpaces(s: string, lo: nat, hi: nat)
    requires lo <= hi <= |s|
    requires forall i :: lo <= i < hi ==> IsSpace(s[i])
    ensures NonSpace(s[lo..hi]) == []
    decreases hi - lo
  {
    if lo < hi {
      NonSpaceOfSpaces(s, lo + 1, hi);
      assert s[lo..hi][0] == s[lo];
      assert s[lo..hi][1..] == s[lo + 1..hi];
    }
  }

  /** Collapsing whitespace keeps every other character, in order. */
  lemma {:induction false} CollapseKeepsText(s: string)
    ensures NonSpace(CollapseSpaces(s)) == NonSpace(s)
    decreases |s|
  {
    if s != [] {
      if IsSpace(s[0]) {
        var n := LeadingSpaces(s);
        CollapseKeepsText(s[n..]);
        SplitTwo(s, n);
        NonSpaceAppend(s[0..n], s[n..]);
        NonSpaceOfSpaces(s, 0, n);
        NonSpaceAppend([' '], CollapseSpaces(s[n..]));
      } else {
        CollapseKeepsText(s[1..]);
        NonSpaceAppend([s[0]], CollapseSpaces(s[1..]));
      }
    }
  }

  /** `LeadingSpaces` sees only as far as the first non-whitespace character. */
  lemma {:induction false} LeadingSpacesAppend(p: string, q: string)
    requires LeadingSpaces(p) < |p|
    ensures LeadingSpaces(p + q) == LeadingSpaces(p)
  {
    if IsSpace(p[0]) {
      FirstOfAppend(p, q);
      LeadingSpacesAppend(p[1..], q);
    } else {
      assert (p + q)[0] == p[0];
    }
  }

  /** A run of whitespace followed by text, or by nothing, collapses to one space before that text. */
  lemma RunThenText(w: string, y: string)
    requires w != [] && forall i :: 0 <= i < |w| ==> IsSpace(w[i])
    requires y == [] || !IsSpace(y[0])
    ensures CollapseSpaces(w + y) == " " + CollapseSpaces(y)
  {
    var s := w + y;
    var n := LeadingSpaces(s);
    assert forall i :: 0 <= i < |w| ==> IsSpace(s[i]) by {
      forall i | 0 <= i < |w| ensures IsSpace(s[i]) { assert s[i] == w[i]; }
    }
    if y != [] {
      assert s[|w|] == y[0];
    }
    assert n == |w|;
    assert s[n..] == y;
  }

  /** `/\s+/g` turns a whole run of whitespace into exactly one space. */
  lemma WhitespaceRunIsOneSpace(w: string)
    requires w != [] && forall i :: 0 <= i < |w| ==> IsSpace(w[i])
    ensures CollapseSpaces(w) == " "
  {
    RunThenText(w, []);
    assert w + [] == w;
  }

  /** Collapsing works piece by piece across a boundary that follows a non-whitespace character. */
  lemma {:induction false} CollapseSplits(p: string, q: string)
    requires p != [] && !IsSpace(p[|p| - 1])
    ensures CollapseSpaces(p + q) == CollapseSpaces(p) + CollapseSpaces(q)
    decreases |p|
  {
    FirstOfAppend(p, q);
    if IsSpace(p[0]) {
      var n := LeadingSpaces(p);
      LeadingSpacesAppend(p, q);
      assert (p + q)[n..] == p[n..] + q;
      CollapseSplits(p[n..], q);
      AppendAssociates([' '], CollapseSpaces(p[n..]), CollapseSpaces(q));
    } else if |p| == 1 {
      assert p[1..] == [];
      assert p[1..] + q == q;
    } else {
      CollapseSplits(p[1..], q);
      AppendAssociates([p[0]], CollapseSpaces(p[1..]), CollapseSpaces(q));
    }
  }

  /** Two pieces of text around a run of whitespace stay separated by exactly one space. */
  lemma WordsStaySeparated(x: string, w: string, y: string)
    requires x != [] && !IsSpace(x[|x| - 1])
    requires w != [] && forall i :: 0 <= i < |w| ==> IsSpace(w[i])
    requires y == [] || !IsSpace(y[0])
    ensures CollapseSpaces(x + w + y) == CollapseSpaces(x) + " " + CollapseSpaces(y)
  {
    AppendAssociates(x, w, y);
    CollapseSplits(x, w + y);
    RunThenText(w, y);
    AppendAssociates(CollapseSpaces(x), " ", CollapseSpaces(y));
  }

  /** Trimming drops whitespace only. */
  lemma TrimKeepsText(s: string)
    ensures NonSpace(Trim(s)) == NonSpace(s)
  {
    var r := Trim(s);
    var a := LeadingSpaces(s);
    var e := a + |r|;
    assert s[a..e] == r;
    SplitThree(s, a, e);
    NonSpaceOfSpaces(s, 0, a);
    NonSpaceOfSpaces(s, e, |s|);
    PaddingDropped(s[0..a], r, s[e..|s|]);
    assert s == s[0..a] + (r + s[e..|s|]);
  }

  /** Whitespace around a string adds nothing to its text. */
  lemma PaddingDropped(before: string, r: string, after: string)
    requires NonSpace(before) == [] && NonSpace(after) == []
    ensures NonSpace(before + (r + after)) == NonSpace(r)
  {
    NonSpaceAppend(before, r + after);
    NonSpaceAppend(r, after);
    EmptyIsNeutral(NonSpace(r));
  }

  /** Tidying changes whitespace and nothing else. */
  lemma TidyKeepsText(s: string)
    ensures NonSpace(Tidy(s)) == NonSpace(s)
  {
    CollapseKeepsText(s);
    TrimKeepsText(CollapseSpaces(s));
  }

  /** A string whose first character is not '<' does not open a tag. */
  lemma NotAnOpening(s: string, tag: string)
    requires s != [] && s[0] != '<'
    ensures !StartsWithCI(s, "<" + tag)
  {
    assert ("<" + tag)[0] == '<';
  }

  lemma {:induction false} RemoveBlocksWithoutMarkup(s: string, tag: string)
    requires '<' !in s
    ensures RemoveBlocks(s, tag) == s
  {
    if s != [] {
      NotAnOpening(s, tag);
      RemoveBlocksWithoutMarkup(s[1..], tag);
      assert s == [s[0]] + s[1..];
    }
  }

  lemma {:induction false} ReplaceTagsWithoutMarkup(s: string)
    requires '<' !in s
    ensures ReplaceTags(s) == s
  {
    if s != [] {
      ReplaceTagsWithoutMarkup(s[1..]);
      assert s == [s[0]] + s[1..];
    }
  }

  /** Text without any '<' has no markup to remove. */
  lemma TextWithoutMarkupIsKept(s: string)
    requires '<' !in s
    ensures StripMarkup(s) == s
  {
    RemoveBlocksWithoutMarkup(s, "script");
    RemoveBlocksWithoutMarkup(s, "style");
    ReplaceTagsWithoutMarkup(s);
  }

  /**
   * A page without markup is cleaned by tidying its whitespace and
   * truncating; when it fits the limit it loses no text at all.
   */
  lemma PlainTextContent(s: string, limit: nat)
    requires '<' !in s
    ensures CleanContent(s, limit) == Take(Tidy(s), limit)
    ensures |Tidy(s)| <= limit ==> NonSpace(CleanContent(s, limit)) == NonSpace(s)
  {
    TextWithoutMarkupIsKept(s);
    assert Normalize(s) == Tidy(s);
    TidyKeepsText(s);
  }

  /** Cutting to a smaller limit gives a prefix of the text cut to a larger one. */
  lemma ShorterLimitIsPrefix(html: string, small: nat, large: nat)
    requires small <= large
    ensures CleanContent(html, small) == Take(CleanContent(html, large), small)
  {
    var n := Normalize(html);
    assert CleanContent(html, small) == Take(n, small);
    assert CleanContent(html, large) == Take(n, large);
    TakeOfTake(n, small, large);
  }

  /** No '<' in `r` is followed anywhere later by a '>'. */
  predicate NoTagLeft(r: string)
  {
    forall i, j :: 0 <= i < j < |r| && r[i] == '<' ==> r[j] != '>'
  }

  /** One character that is not '<' in front keeps `NoTagLeft`. */
  lemma PrependKeepsNoTag(c: char, r: string)
    requires c != '<' && NoTagLeft(r)
    ensures NoTagLeft([c] + r)
  {
    var x := [c] + r;
    forall i, j | 0 <= i < j < |x| && x[i] == '<'
      ensures x[j] != '>'
    {
      assert x[i] == r[i - 1] && x[j] == r[j - 1];
    }
  }

  /** After `/<[^>]*>/g` no '<' is followed anywhere later by a '>': every complete tag is gone. */
  lemma {:induction false} ReplaceTagsLeavesNoTag(s: string)
    ensures NoTagLeft(ReplaceTags(s))
    decreases |s|
  {
    if s != [] {
      if s[0] == '<' {
        match IndexOf(s[1..], '>')
        case Some(g) =>
          ReplaceTagsLeavesNoTag(s[g + 2..]);
          PrependKeepsNoTag(' ', ReplaceTags(s[g + 2..]));
        case None =>
          forall i, j | 0 <= i < j < |s| && s[i] == '<'
            ensures s[j] != '>'
          {
            assert s[j] == s[1..][j - 1];
          }
      } else {
        ReplaceTagsLeavesNoTag(s[1..]);
        PrependKeepsNoTag(s[0], ReplaceTags(s[1..]));
      }
    }
  }

  lemma {:induction false} NoBlockWithoutMarkup(s: string, tag: string)
    requires '<' !in s
    ensures FirstBlockInner(s, tag) == None
  {
    if s != [] {
      NotAnOpening(s, tag);
      NoBlockWithoutMarkup(s[1..], tag);
    }
  }

  /** A page without any '<' has no title. */
  lemma NoTitleWithoutMarkup(html: string)
    requires '<' !in html
    ensures ExtractTitle(html) == NoTitle
  {
    NoBlockWithoutMarkup(html, "title");
  }

  /** Every character of `lit` is its own lower case. */
  predicate LowerCaseLiteral(lit: string)
  {
    forall k :: 0 <= k < |lit| ==> LowerChar(lit[k]) == lit[k]
  }

  lemma StartsWithItself(lit: string, rest: string)
    requires LowerCaseLiteral(lit)
    ensures StartsWithCI(lit + rest, lit)
  {
    assert forall k :: 0 <= k < |lit| ==> (lit + rest)[k] == lit[k];
  }

  /** `.*?` over plain one-line text stops at the first closing tag after it. */
  lemma {:induction false} LazyUntilPlainText(t: string, rest: string, close: string)
    requires close != [] && close[0] == '<'
    requires '<' !in t
    requires forall k :: 0 <= k < |t| ==> !IsLineTerminator(t[k])
    requires StartsWithCI(rest, close)
    ensures LazyUntil(t + rest, close) == Some(|t|)
  {
    if t == [] {
      assert t + rest == rest;
    } else {
      assert (t + rest)[0] == t[0];
      assert !StartsWithCI(t + rest, close);
      assert (t + rest)[1..] == t[1..] + rest;
      LazyUntilPlainText(t[1..], rest, close);
    }
  }

  /** The element `<tag>inner</tag>`, written without attributes. */
  function Element(tag: string, inner: string): string
  {
    "<" + tag + ">" + inner + "</" + tag + ">"
  }

  lemma TagsAreLowerCase(tag: string)
    requires LowerCaseLiteral(tag)
    ensures LowerCaseLiteral("<" + tag) && LowerCaseLiteral("</" + tag + ">")
  {
    var open := "<" + tag;
    var close := "</" + tag + ">";
    forall k | 0 <= k < |open| ensures LowerChar(open[k]) == open[k] {
      if k > 0 { assert open[k] == tag[k - 1]; }
    }
    forall k | 0 <= k < |close| ensures LowerChar(close[k]) == close[k] {
      if 1 < k < |close| - 1 { assert close[k] == tag[k - 2]; }
    }
  }

  /** Plain one-line text followed by `</tag>` is matched by `.*?<\/tag>` up to its end. */
  lemma ClosingTagFound(tag: string, t: string, post: string, x: string)
    requires LowerCaseLiteral(tag)
    requires '<' !in t
    requires forall k :: 0 <= k < |t| ==> !IsLineTerminator(t[k])
    requires x == t + ("</" + tag + ">" + post)
    ensures LazyUntil(x, "</" + tag + ">") == Some(|t|)
  {
    var close := "</" + tag + ">";
    TagsAreLowerCase(tag);
    StartsWithItself(close, post);
    LazyUntilPlainText(t, close + post, close);
  }

  /** The element, once past its opening tag: its text and its closing tag. */
  lemma ElementInner(tag: string, t: string, post: string)
    ensures (Element(tag, t) + post)[|tag| + 2..] == t + ("</" + tag + ">" + post)
  {
  }

  /** `<tag>` opens the element, and its '>' comes right after the name. */
  lemma OpeningMatched(tag: string, t: string, post: string)
    requires LowerCaseLiteral(tag)
    ensures var s := Element(tag, t) + post;
            StartsWithCI(s, "<" + tag) && IndexOf(s[|tag| + 1..], '>') == Some(0)
  {
    var open := "<" + tag;
    var rest := ">" + t + "</" + tag + ">" + post;
    assert Element(tag, t) + post == open + rest;
    TagsAreLowerCase(tag);
    StartsWithItself(open, rest);
    assert (open + rest)[|tag| + 1..] == rest;
  }

  /** The inner text of the element is matched lazily up to its closing tag. */
  lemma ClosingMatched(tag: string, t: string, post: string)
    requires LowerCaseLiteral(tag)
    requires '<' !in t
    requires forall k :: 0 <= k < |t| ==> !IsLineTerminator(t[k])
    ensures LazyUntil((Element(tag, t) + post)[|tag| + 2..], "</" + tag + ">") == Some(|t|)
  {
    ElementInner(tag, t, post);
    ClosingTagFound(tag, t, post, (Element(tag, t) + post)[|tag| + 2..]);
  }

  /** An element with plain one-line text inside, at the very start of a string. */
  lemma BlockAtStart(tag: string, t: string, post: string)
    requires LowerCaseLiteral(tag)
    requires '<' !in t
    requires forall k :: 0 <= k < |t| ==> !IsLineTerminator(t[k])
    ensures BlockAt(Element(tag, t) + post, tag) == Some(Block(|tag| + 2, |tag| + 2 + |t|, 2 * |tag| + 5 + |t|))
  {
    OpeningMatched(tag, t, post);
    ClosingMatched(tag, t, post);
    BlockFound(Element(tag, t) + post, tag, (Element(tag, t) + post)[|tag| + 2..], |t|);
  }

  /** The three matches `BlockAt` looks for, the opening '>' right after the name. */
  lemma BlockFound(s: string, tag: string, inner: string, k: nat)
    requires StartsWithCI(s, "<" + tag)
    requires IndexOf(s[|tag| + 1..], '>') == Some(0)
    requires inner == s[|tag| + 2..]
    requires LazyUntil(inner, "</" + tag + ">") == Some(k)
    ensures BlockAt(s, tag) == Some(Block(|tag| + 2, |tag| + 2 + k, 2 * |tag| + 5 + k))
  {
  }

  /**
   * The title of a page whose first '<' opens a one-line `<title>`
   * element: its text, trimmed.
   */
  lemma TitleOfSimplePage(pre: string, t: string, post: string)
    requires '<' !in pre && '<' !in t
    requires forall k :: 0 <= k < |t| ==> !IsLineTerminator(t[k])
    ensures ExtractTitle(pre + Element("title", t) + post) == Trim(t)
  {
    var x := pre + Element("title", t) + post;
    forall p | 0 <= p < |pre| ensures BlockAt(x[p..], "title").None? {
      assert x[p..][0] == pre[p];
      NotAnOpening(x[p..], "title");
    }
    TitleAfterPreamble(pre, t, post);
  }

  /**
   * The title of a page whose first title match is a one-line `<title>`
   * element after a preamble (a doctype, `<html>`, `<head>`, ...) in which
   * no title match starts: that element's text, trimmed.
   */
  lemma TitleAfterPreamble(pre: string, t: string, post: string)
    requires '<' !in t
    requires forall k :: 0 <= k < |t| ==> !IsLineTerminator(t[k])
    requires forall p :: 0 <= p < |pre| ==> BlockAt((pre + Element("title", t) + post)[p..], "title").None?
    ensures ExtractTitle(pre + Element("title", t) + post) == Trim(t)
  {
    var s := Element("title", t) + post;
    var x := pre + Element("title", t) + post;
    TitleElementMatched(t, post);
    assert x == pre + s;
    LeftmostAfter(x, pre, s, "title");
  }

  /** A one-line `<title>` element at the start of a string is matched with its text as the inner text. */
  lemma TitleElementMatched(t: string, post: string)
    requires '<' !in t
    requires forall k :: 0 <= k < |t| ==> !IsLineTerminator(t[k])
    ensures var s := Element("title", t) + post;
            BlockAt(s, "title").Some?
            && s[BlockAt(s, "title").value.innerStart..BlockAt(s, "title").value.innerEnd] == t
  {
    var s := Element("title", t) + post;
    assert LowerCaseLiteral("title");
    BlockAtStart("title", t, post);
    assert s[7..7 + |t|] == t;
  }

  /** A match right after a stretch where none starts is the leftmost one. */
  lemma LeftmostAfter(x: string, pre: string, s: string, tag: string)
    requires x == pre + s && s != [] && BlockAt(s, tag).Some?
    requires forall p :: 0 <= p < |pre| ==> BlockAt(x[p..], tag).None?
    ensures LeftmostBlock(x, tag, |pre|)
    ensures InnerAt(x, tag, |pre|) == s[BlockAt(s, tag).value.innerStart..BlockAt(s, tag).value.innerEnd]
  {
    assert x[|pre|..] == s;
  }

  /** Plain text in front of a page does not change its first block. */
  lemma {:induction false} FirstBlockAfterPlainText(pre: string, tag: string, s: string)
    requires '<' !in pre
    ensures FirstBlockInner(pre + s, tag) == FirstBlockInner(s, tag)
  {
    if pre == [] {
      assert pre + s == s;
    } else {
      var x := pre + s;
      NotAnOpening(x, tag);
      assert x[1..] == pre[1..] + s;
      FirstBlockAfterPlainText(pre[1..], tag, s);
    }
  }
}
