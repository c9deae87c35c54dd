/** The code-block extractor of the chat component: the assistant's reply is
    searched first for a block fenced as "```html\n" … "\n```", then for any
    block fenced "```" … "```"; the first capture found becomes the preview
    markup, and a reply with neither is used whole.

    Both searches are JavaScript regular expressions of the shape
    `open([\s\S]*?)close` with literal delimiters. Such an expression matches
    at the leftmost index where `open` occurs and is followed, at or after its
    end, by `close`; the lazy `*?` then takes the shortest capture, ending at
    the first `close` from there. IsMatch and IsFirstMatch state that
    meaning; MatchFence computes it by two substring searches. */
module Extraction {
  import opened Wrappers
  import opened Strings

  const HtmlOpen: string := "```html\n"
  const HtmlClose: string := "\n```"
  const Fence: string := "```"

  /** The text `open`, then any text, then `close`, starting at index `i` of
      `s`, with `close` starting at index `j`: one way the expression can match. */
  ghost predicate IsMatch(s: string, open: string, close: string, i: nat, j: nat) {
    OccursAt(s, open, i) && i + |open| <= j && OccursAt(s, close, j)
  }

  /** The match a regular-expression engine reports: the leftmost start, and
      for that start the shortest capture. */
  ghost predicate IsFirstMatch(s: string, open: string, close: string, i: nat, j: nat) {
    && IsMatch(s, open, close, i, j)
    && (forall i': nat, j': nat :: i' < i ==> !IsMatch(s, open, close, i', j'))
    && (forall j': nat :: j' < j ==> !IsMatch(s, open, close, i, j'))
  }

  /** Where a match lies: it starts at `start`, and the capture is `s[lo..hi]`. */
  datatype Span = Span(start: nat, lo: nat, hi: nat)

  /** `s.match(/open([\s\S]*?)close/)` for literal `open` and `close`. */
  function MatchFence(s: string, open: string, close: string): (r: Option<Span>)
    ensures r.Some? ==> r.value.lo == r.value.start + |open| && r.value.lo <= r.value.hi
    ensures r.Some? ==> r.value.hi + |close| <= |s|
    ensures r.Some? ==> IsFirstMatch(s, open, close, r.value.start, r.value.hi)
    ensures r.None? <==> forall i: nat, j: nat :: !IsMatch(s, open, close, i, j)
  {
    match FindFrom(s, open, 0)
    case None => None
    case Some(i) =>
      match FindFrom(s, close, i + |open|)
      case None => None
      case Some(j) => Some(Span(i, i + |open|, j))
  }

  /** The first match is unique, so any match that is first is the one MatchFence reports. */
  lemma MatchFenceIsFirst(s: string, open: string, close: string, i: nat, j: nat)
    requires IsFirstMatch(s, open, close, i, j)
    ensures MatchFence(s, open, close) == Some(Span(i, i + |open|, j))
  {
  }

  /** The capture is lazy: the closing delimiter does not occur inside it. */
  lemma CaptureExcludesClose(s: string, open: string, close: string)
    requires close != []
    requires MatchFence(s, open, close).Some?
    ensures !Contains(s[MatchFence(s, open, close).value.lo..MatchFence(s, open, close).value.hi], close)
  {
    var sp := MatchFence(s, open, close).value;
    if Contains(s[sp.lo..sp.hi], close) {
      var k: nat :| OccursAt(s[sp.lo..sp.hi], close, k);
      OccursInSlice(s, sp.lo, sp.hi, close, k);
      assert IsMatch(s, open, close, sp.start, sp.lo + k);
      assert false;
    }
  }

  /** Every html-fenced block is also a generic fenced block: "```html\n"
      begins with "```", and "\n```" ends with it. */
  lemma HtmlMatchIsFenceMatch(s: string, i: nat, j: nat)
    requires IsMatch(s, HtmlOpen, HtmlClose, i, j)
    ensures IsMatch(s, Fence, Fence, i, j + 1)
  {
    assert s[i..i + 3] == s[i..i + 8][..3];
    assert s[j + 1..j + 4] == s[j..j + 4][1..];
  }

  /** A reply without any "```" is shown as it is, and extracting again
      changes nothing. */
  lemma NoFenceKeepsReply(reply: string)
    requires !Contains(reply, Fence)
    ensures Extract(reply) == reply
    ensures Extract(Extract(reply)) == Extract(reply)
  {
    assert MatchFence(reply, Fence, Fence).None?;
    if MatchFence(reply, HtmlOpen, HtmlClose).Some? {
      var sp := MatchFence(reply, HtmlOpen, HtmlClose).value;
      HtmlMatchIsFenceMatch(reply, sp.start, sp.hi);
    }
  }

  /** The html-labelled block wins: when the html pattern matches, the
      result is the text between its first opener and the nearest closer
      after it, wherever generic fences occur in the reply. */
  lemma HtmlBlockFirst(reply: string, i: nat, j: nat)
    requires IsFirstMatch(reply, HtmlOpen, HtmlClose, i, j)
    ensures Extract(reply) == reply[i + |HtmlOpen|..j]
  {
    MatchFenceIsFirst(reply, HtmlOpen, HtmlClose, i, j);
  }

  /** Without an html-labelled block, the first generic fenced block is used. */
  lemma FenceBlockSecond(reply: string, i: nat, j: nat)
    requires forall i': nat, j': nat :: !IsMatch(reply, HtmlOpen, HtmlClose, i', j')
    requires IsFirstMatch(reply, Fence, Fence, i, j)
    ensures Extract(reply) == reply[i + |Fence|..j]
  {
    MatchFenceIsFirst(reply, Fence, Fence, i, j);
  }

  /** Lazy captures: an html capture holds no "\n```", a generic one no "```". */
  lemma ExtractHasNoCloser(reply: string)
    ensures MatchFence(reply, HtmlOpen, HtmlClose).Some? ==> !Contains(Extract(reply), HtmlClose)
    ensures MatchFence(reply, HtmlOpen, HtmlClose).None? && MatchFence(reply, Fence, Fence).Some?
            ==> !Contains(Extract(reply), Fence)
  {
    if MatchFence(reply, HtmlOpen, HtmlClose).Some? {
      CaptureExcludesClose(reply, HtmlOpen, HtmlClose);
    } else if MatchFence(reply, Fence, Fence).Some? {
      CaptureExcludesClose(reply, Fence, Fence);
    }
  }

  /** The preview markup extracted from the assistant's reply: the capture
      of the html pattern, else that of the generic pattern, else the whole
      reply. It is always a contiguous piece of the reply; it is the whole
      reply exactly when no fenced block matches, and strictly shorter
      whenever either pattern matches. */
  function Extract(reply: string): (code: string)
    ensures exists lo: nat, hi: nat :: lo <= hi <= |reply| && code == reply[lo..hi]
    ensures code == reply <==> MatchFence(reply, Fence, Fence).None?
    ensures MatchFence(reply, HtmlOpen, HtmlClose).Some? ==> |code| < |reply|
    ensures MatchFence(reply, Fence, Fence).Some? ==> |code| < |reply|
  {
    match MatchFence(reply, HtmlOpen, HtmlClose)
    case Some(sp) =>
      HtmlMatchIsFenceMatch(reply, sp.start, sp.hi);
      reply[sp.lo..sp.hi]
    case None =>
      match MatchFence(reply, Fence, Fence)
      case Some(sp) => reply[sp.lo..sp.hi]
      case None =>
        assert reply[0..|reply|] == reply;
        reply
  }

  /** Two occurrences of "\n```" cannot overlap: the newline that starts
      the later one would fall on a backquote of the earlier one. */
  lemma ClosersDoNotOverlap(s: string, j: nat, k: nat)
    requires OccursAt(s, HtmlClose, j) && OccursAt(s, HtmlClose, k) && j < k
    ensures j + |HtmlClose| <= k
  {
    assert forall d :: 0 <= d < |HtmlClose| ==> s[j + d] == s[j..j + |HtmlClose|][d] == HtmlClose[d];
    assert s[k] == s[k..k + |HtmlClose|][0] == '\n';
  }

  /** Text without a line break cannot hold the html closer "\n```". */
  lemma NoNewlineNoCloser(s: string)
    requires forall k :: 0 <= k < |s| ==> s[k] != '\n'
    ensures !Contains(s, HtmlClose)
  {
    forall k: nat ensures !OccursAt(s, HtmlClose, k) {
      if k + |HtmlClose| <= |s| {
        assert s[k..k + |HtmlClose|][0] == s[k] != '\n';
      }
    }
  }

  /** Fencing a body as an html block and extracting gives the body back,
      provided the body does not itself hold the closing "\n```". */
  lemma HtmlRoundTrip(body: string)
    requires !Contains(body, HtmlClose)
    ensures Extract(HtmlOpen + body + HtmlClose) == body
  {
    var s := HtmlOpen + body + HtmlClose;
    var end := |HtmlOpen| + |body|;
    assert s[..|HtmlOpen|] == HtmlOpen && s[|HtmlOpen|..end] == body && s[end..] == HtmlClose;
    assert IsMatch(s, HtmlOpen, HtmlClose, 0, end);
    forall j: nat | j < end ensures !IsMatch(s, HtmlOpen, HtmlClose, 0, j) {
      if IsMatch(s, HtmlOpen, HtmlClose, 0, j) {
        ClosersDoNotOverlap(s, j, end);
        assert s[j..j + |HtmlClose|] == body[j - |HtmlOpen|..j - |HtmlOpen| + |HtmlClose|];
        assert OccursAt(body, HtmlClose, j - |HtmlOpen|);
      }
    }
    HtmlBlockFirst(s, 0, end);
  }

  /** An html block with an empty body yields the empty string. */
  lemma EmptyHtmlBlock()
    ensures Extract("```html\n\n```") == ""
  {
    var s := "```html\n\n```";
    assert OccursAt(s, HtmlOpen, 0) && OccursAt(s, HtmlClose, 8);
    HtmlBlockFirst(s, 0, 8);
  }

  /** "```html\n```" is too short for the html pattern, whose closer needs a
      newline of its own; the generic pattern then captures "html\n". */
  lemma HtmlFenceWithoutBody()
    ensures Extract("```html\n```") == "html\n"
  {
    var s := "```html\n```";
    forall i: nat, j: nat ensures !IsMatch(s, HtmlOpen, HtmlClose, i, j) { }
    assert OccursAt(s, Fence, 0) && OccursAt(s, Fence, 8);
    forall j': nat | j' < 8 ensures !IsMatch(s, Fence, Fence, 0, j') {
      if 3 <= j' {
        assert s[j'] != '`';
        assert s[j'..j' + 3][0] == s[j'];
      }
    }
    FenceBlockSecond(s, 0, 8);
  }
}
