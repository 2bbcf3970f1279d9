/**
 * `parseVideoTitle` of `lib/utils/video.ts`: splits a raw video title into the
 * inner text of its first bracket tag (the quality, such as `HD`) and the title
 * with every bracket tag removed and the rest trimmed.
 *
 * The tags are the matches of the global RegExp `/\[([^\]]+)\]/g`. The model
 * scans positions the way that RegExp does: it tries a match at one position,
 * and after a match it resumes right behind it.
 */
module VideoTitle {
  import opened Wrappers
  import opened EcmaString

  /** One match of the bracket RegExp: it starts at `start` and its capture group is `inner`. */
  datatype Segment = Segment(start: nat, inner: string)

  /** The result of `parseVideoTitle`; an absent quality is `None`. */
  datatype ParsedTitle = ParsedTitle(cleanTitle: string, quality: Option<string>)

  /** `s` holds at `p` a bracket segment with inner text `q`: `[`, then `q` (non-empty, without `]`), then `]`. */
  predicate IsSegmentAt(s: string, p: int, q: string) {
    && 0 <= p && p + |q| + 2 <= |s|
    && s[p] == '[' && s[p + 1..p + 1 + |q|] == q && s[p + 1 + |q|] == ']'
    && |q| > 0 && ']' !in q
  }

  /** `s` holds no bracket segment anywhere. */
  ghost predicate NoSegment(s: string) {
    forall p, q :: !IsSegmentAt(s, p, q)
  }

  /** The segment at `p` is the leftmost one of `s`. */
  ghost predicate IsLeftmostSegment(s: string, p: int, q: string) {
    IsSegmentAt(s, p, q) && forall p', q' :: 0 <= p' < p ==> !IsSegmentAt(s, p', q')
  }

  /** The index of the first `]` in `s` at or after `from`. */
  function FindClose(s: string, from: nat): (r: Option<nat>)
    requires from <= |s|
    ensures r.Some? ==> from <= r.value < |s| && s[r.value] == ']'
    decreases |s| - from
  {
    if from == |s| then None
    else if s[from] == ']' then Some(from)
    else FindClose(s, from + 1)
  }

  /** No `]` comes before the one found, and none at all when none is found. */
  lemma {:induction false} FindCloseIsFirst(s: string, from: nat)
    requires from <= |s|
    ensures FindClose(s, from).Some? ==> forall k :: from <= k < FindClose(s, from).value ==> s[k] != ']'
    ensures FindClose(s, from).None? ==> forall k :: from <= k < |s| ==> s[k] != ']'
    decreases |s| - from
  {
    if from < |s| && s[from] != ']' {
      FindCloseIsFirst(s, from + 1);
    }
  }

  /**
   * The bracket RegExp tried at position `p` only. `[^\]]+` is greedy and cannot
   * cross a `]`, so the inner text runs up to the first `]`, and it must not be empty.
   */
  function SegmentAt(s: string, p: nat): (r: Option<string>)
    requires p <= |s|
    ensures r.Some? ==> p + |r.value| + 2 <= |s|
  {
    if p < |s| && s[p] == '[' then
      match FindClose(s, p + 1)
      case Some(k) => if k > p + 1 then Some(s[p + 1..k]) else None
      case None => None
    else None
  }

  /** What the attempt at `p` finds is a segment. */
  lemma SegmentAtSound(s: string, p: nat)
    requires p <= |s|
    ensures SegmentAt(s, p).Some? ==> IsSegmentAt(s, p, SegmentAt(s, p).value)
  {
    if SegmentAt(s, p).Some? {
      FindCloseIsFirst(s, p + 1);
      var q := SegmentAt(s, p).value;
      forall j | 0 <= j < |q| ensures q[j] != ']' {
        assert q[j] == s[p + 1 + j];
      }
    }
  }

  /** The attempt at `p` finds every segment that is there: the segment at a position is unique. */
  lemma SegmentAtFinds(s: string, p: nat, q: string)
    requires IsSegmentAt(s, p, q)
    ensures SegmentAt(s, p) == Some(q)
  {
    var close := p + 1 + |q|;
    FindCloseIsFirst(s, p + 1);
    forall k | p + 1 <= k < close ensures s[k] != ']' {
      assert s[k] == q[k - p - 1];
    }
    assert FindClose(s, p + 1) == Some(close);
  }

  /** The leftmost segment of `s` at or after `from`: the first match of the global RegExp from `lastIndex = from`. */
  function LeftmostFrom(s: string, from: nat): (r: Option<Segment>)
    requires from <= |s|
    ensures r.Some? ==> from <= r.value.start && r.value.start + |r.value.inner| + 2 <= |s|
    decreases |s| - from
  {
    if from == |s| then None
    else match SegmentAt(s, from)
      case Some(q) => Some(Segment(from, q))
      case None => LeftmostFrom(s, from + 1)
  }

  /** The scan finds the leftmost segment at or after `from`, and it finds none only when there is none. */
  lemma {:induction false} LeftmostFromIsLeftmost(s: string, from: nat)
    requires from <= |s|
    ensures LeftmostFrom(s, from).Some? ==>
              var seg := LeftmostFrom(s, from).value;
              && IsSegmentAt(s, seg.start, seg.inner)
              && forall p, q :: from <= p < seg.start ==> !IsSegmentAt(s, p, q)
    ensures LeftmostFrom(s, from).None? ==> forall p, q :: from <= p ==> !IsSegmentAt(s, p, q)
    decreases |s| - from
  {
    if from < |s| {
      if SegmentAt(s, from).Some? {
        SegmentAtSound(s, from);
      } else {
        forall q | IsSegmentAt(s, from, q) ensures false {
          SegmentAtFinds(s, from, q);
        }
        LeftmostFromIsLeftmost(s, from + 1);
      }
    }
  }

  /**
   * `s.replace(bracketRegex, '')` from position `from`: the global RegExp keeps
   * each character where no match starts and skips each match it finds.
   */
  function RemoveFrom(s: string, from: nat): (r: string)
    requires from <= |s|
    ensures |r| <= |s| - from
    decreases |s| - from
  {
    if from == |s| then []
    else match SegmentAt(s, from)
      case Some(q) => RemoveFrom(s, from + |q| + 2)
      case None => [s[from]] + RemoveFrom(s, from + 1)
  }

  /** `title.replace(bracketRegex, '')`. */
  function RemoveSegments(s: string): (r: string)
    ensures |r| <= |s|
  {
    RemoveFrom(s, 0)
  }

  /** `parseVideoTitle(title)`: the quality is a tag's inner text, and the clean title is empty only for an empty title. */
  function ParseVideoTitle(title: string): (r: ParsedTitle)
    ensures r.quality.Some? ==> |r.quality.value| > 0 && ']' !in r.quality.value
    ensures r.cleanTitle == [] <==> title == []
  {
    LeftmostFromIsLeftmost(title, 0);
    var first := LeftmostFrom(title, 0);
    var quality := if first.Some? then Some(first.value.inner) else None;
    var cleanTitle := if first.Some? then Trim(RemoveSegments(title)) else title;
    ParsedTitle(if cleanTitle == [] then title else cleanTitle, quality)
  }

  /**
   * A title without a segment comes back unchanged and without a quality; a
   * title with one yields the inner text of its leftmost segment as the quality.
   */
  lemma QualityIsLeftmostSegment(title: string)
    ensures ParseVideoTitle(title).quality.None? <==> NoSegment(title)
    ensures NoSegment(title) ==> ParseVideoTitle(title) == ParsedTitle(title, None)
    ensures ParseVideoTitle(title).quality.Some? ==>
              exists p :: IsLeftmostSegment(title, p, ParseVideoTitle(title).quality.value)
  {
    LeftmostFromIsLeftmost(title, 0);
    var first := LeftmostFrom(title, 0);
    if first.Some? {
      assert IsLeftmostSegment(title, first.value.start, first.value.inner);
    }
  }

  /** Where the next match starts, or the end of `s` when there is none. */
  function NextMatchStart(s: string, from: nat): (r: nat)
    requires from <= |s|
    ensures from <= r <= |s|
  {
    if LeftmostFrom(s, from).Some? then LeftmostFrom(s, from).value.start else |s|
  }

  /** What the replace makes of the text behind the next match; nothing when there is none. */
  function AfterNextMatch(s: string, from: nat): string
    requires from <= |s|
  {
    match LeftmostFrom(s, from)
    case Some(seg) => RemoveFrom(s, seg.start + |seg.inner| + 2)
    case None => []
  }

  /**
   * The replace deletes exactly the matches: up to the leftmost segment it keeps
   * every character, then it resumes right behind that segment; with no segment
   * left it keeps the rest unchanged.
   */
  lemma {:induction false} RemoveSkipsLeftmost(s: string, from: nat)
    requires from <= |s|
    ensures RemoveFrom(s, from) == s[from..NextMatchStart(s, from)] + AfterNextMatch(s, from)
    decreases |s| - from
  {
    if from == |s| {
      assert s[from..from] == [];
    } else if SegmentAt(s, from).Some? {
      SkipFirst(s, from);
    } else {
      RemoveSkipsLeftmost(s, from + 1);
      PassOne(s, from);
    }
  }

  /** Where a match starts, the replace skips it and keeps nothing before it. */
  lemma SkipFirst(s: string, from: nat)
    requires from < |s| && SegmentAt(s, from).Some?
    ensures RemoveFrom(s, from) == s[from..NextMatchStart(s, from)] + AfterNextMatch(s, from)
  {
    assert s[from..from] == [];
  }

  /** Where no match starts, the scan goes on at the next position and the replace keeps the character. */
  lemma PassOne(s: string, from: nat)
    requires from < |s| && SegmentAt(s, from).None?
    requires RemoveFrom(s, from + 1) == s[from + 1..NextMatchStart(s, from + 1)] + AfterNextMatch(s, from + 1)
    ensures RemoveFrom(s, from) == s[from..NextMatchStart(s, from)] + AfterNextMatch(s, from)
  {
    var a, tail := NextMatchStart(s, from + 1), AfterNextMatch(s, from + 1);
    assert LeftmostFrom(s, from) == LeftmostFrom(s, from + 1);
    assert NextMatchStart(s, from) == a && AfterNextMatch(s, from) == tail;
    KeepOne(s, from, a, tail);
  }

  /** Where no match starts, the replace keeps the character and goes on at the next one. */
  lemma KeepOne(s: string, from: nat, a: nat, tail: string)
    requires from < a <= |s| && SegmentAt(s, from).None?
    requires RemoveFrom(s, from + 1) == s[from + 1..a] + tail
    ensures RemoveFrom(s, from) == s[from..a] + tail
  {
    assert RemoveFrom(s, from) == [s[from]] + (s[from + 1..a] + tail);
    ConsSlice(s, from, a, tail);
  }

  /** Putting `s[from]` in front of the slice that follows it gives the slice from `from`. */
  lemma ConsSlice(s: string, from: nat, a: nat, tail: string)
    requires from < a <= |s|
    ensures [s[from]] + (s[from + 1..a] + tail) == s[from..a] + tail
  {
    assert [s[from]] + s[from + 1..a] == s[from..a];
  }

  /** A stretch without `[` holds no match: the scan and the replace pass over it unchanged. */
  lemma {:induction false} SkipPlain(s: string, from: nat, p: nat)
    requires from <= p <= |s|
    requires forall k :: from <= k < p ==> s[k] != '['
    ensures LeftmostFrom(s, from) == LeftmostFrom(s, p)
    ensures RemoveFrom(s, from) == s[from..p] + RemoveFrom(s, p)
    decreases p - from
  {
    if from < p {
      assert SegmentAt(s, from).None?;
      SkipPlain(s, from + 1, p);
      KeepOne(s, from, p, RemoveFrom(s, p));
    }
  }

  /** A segment at `p` is the match found from `p`, and the replace resumes right behind it. */
  lemma TakeSegment(s: string, p: nat, q: string)
    requires IsSegmentAt(s, p, q)
    ensures LeftmostFrom(s, p) == Some(Segment(p, q))
    ensures RemoveFrom(s, p) == RemoveFrom(s, p + |q| + 2)
  {
    SegmentAtFinds(s, p, q);
  }

  /** What the replace keeps comes from `s[from..]`: a character absent there is absent from the result. */
  lemma {:induction false} RemoveKeepsOnly(s: string, from: nat, c: char)
    requires from <= |s|
    requires forall k :: from <= k < |s| ==> s[k] != c
    ensures c !in RemoveFrom(s, from)
    decreases |s| - from
  {
    if from < |s| {
      match SegmentAt(s, from)
      case Some(q) => RemoveKeepsOnly(s, from + |q| + 2, c);
      case None => RemoveKeepsOnly(s, from + 1, c);
    }
  }

  /** A segment inside a slice is a segment of the whole string. */
  lemma SegmentInSlice(s: string, a: nat, b: nat, p: int, q: string)
    requires a <= b <= |s|
    requires IsSegmentAt(s[a..b], p, q)
    ensures IsSegmentAt(s, a + p, q)
  {
    var t := s[a..b];
    assert t[p] == s[a + p] && t[p + 1 + |q|] == s[a + p + 1 + |q|];
    var u := s[a + p + 1..a + p + 1 + |q|];
    forall j | 0 <= j < |q| ensures u[j] == q[j] {
      assert q[j] == t[p + 1..p + 1 + |q|][j] == t[p + 1 + j];
    }
  }

  /** Every slice of a segment-free string is segment-free. */
  lemma SliceNoSegment(s: string, a: nat, u: string)
    requires a + |u| <= |s| && u == s[a..a + |u|] && NoSegment(s)
    ensures NoSegment(u)
  {
    forall p, q | IsSegmentAt(u, p, q) ensures false {
      SegmentInSlice(s, a, a + |u|, p, q);
    }
  }

  /** The replace leaves no segment behind: a kept `[` is followed by a kept `]` or by no `]` at all. */
  lemma {:induction false} RemoveLeavesNoSegment(s: string, from: nat)
    requires from <= |s|
    ensures NoSegment(RemoveFrom(s, from))
    decreases |s| - from
  {
    if from == |s| {
      forall p, q ensures !IsSegmentAt(RemoveFrom(s, from), p, q) {
      }
    } else if SegmentAt(s, from).Some? {
      var q := SegmentAt(s, from).value;
      RemoveLeavesNoSegment(s, from + |q| + 2);
      assert RemoveFrom(s, from) == RemoveFrom(s, from + |q| + 2);
    } else {
      RemoveLeavesNoSegment(s, from + 1);
      KeptNoSegment(s, from);
    }
  }

  /** Keeping a character where no match starts cannot create a segment. */
  lemma KeptNoSegment(s: string, from: nat)
    requires from < |s| && SegmentAt(s, from).None?
    requires NoSegment(RemoveFrom(s, from + 1))
    ensures NoSegment(RemoveFrom(s, from))
  {
    var rest := RemoveFrom(s, from + 1);
    assert RemoveFrom(s, from) == [s[from]] + rest;
    KeptOpensNothing(s, from, [s[from]] + rest);
    ConsNoSegment(s[from], rest);
  }

  /** A kept character does not open a segment in the result. */
  lemma KeptOpensNothing(s: string, from: nat, r: string)
    requires from < |s| && SegmentAt(s, from).None? && r == [s[from]] + RemoveFrom(s, from + 1)
    ensures forall q :: !IsSegmentAt(r, 0, q)
  {
    var rest := RemoveFrom(s, from + 1);
    FindCloseIsFirst(s, from + 1);
    forall q | IsSegmentAt(r, 0, q) ensures false {
      assert r[1] == q[0] && r[1 + |q|] == ']';
      assert ']' in rest by { assert rest[|q|] == ']'; }
      if FindClose(s, from + 1).None? {
        RemoveKeepsOnly(s, from + 1, ']');
      }
    }
  }

  /** A character in front of a segment-free string adds no segment unless it opens one. */
  lemma ConsNoSegment(c: char, rest: string)
    requires NoSegment(rest)
    requires forall q :: !IsSegmentAt([c] + rest, 0, q)
    ensures NoSegment([c] + rest)
  {
    var r := [c] + rest;
    forall p, q | IsSegmentAt(r, p, q) ensures false {
      assert p > 0;
      assert r[1..] == rest;
      SegmentInSlice(r, 1, |r|, p - 1, q);
      assert IsSegmentAt(rest, p - 1, q) by {
        assert rest[p..p + |q|] == r[p + 1..p + 1 + |q|];
      }
    }
  }

  /** The clean title is the title itself, or it holds no segment and has no space at either end. */
  lemma CleanTitleIsClean(title: string)
    ensures var clean := ParseVideoTitle(title).cleanTitle;
            clean == title || (NoSegment(clean) && !IsSpace(clean[0]) && !IsSpace(clean[|clean| - 1]))
  {
    RemoveLeavesNoSegment(title, 0);
    TrimNoSegment(RemoveSegments(title));
  }

  /** Trimming keeps a string segment-free. */
  lemma TrimNoSegment(t: string)
    requires NoSegment(t)
    ensures NoSegment(Trim(t))
  {
    var clean := Trim(t);
    var a :| IsTrimmedSlice(t, a, clean);
    SliceNoSegment(t, a, clean);
  }

  /**
   * `parseVideoTitle` is idempotent on its clean title; unless the title was kept
   * as it was, parsing the clean title again finds no quality.
   */
  lemma CleanTitleIdempotent(title: string)
    ensures ParseVideoTitle(ParseVideoTitle(title).cleanTitle).cleanTitle == ParseVideoTitle(title).cleanTitle
    ensures ParseVideoTitle(title).cleanTitle != title ==>
              ParseVideoTitle(ParseVideoTitle(title).cleanTitle).quality == None
  {
    CleanTitleIsClean(title);
    QualityIsLeftmostSegment(ParseVideoTitle(title).cleanTitle);
  }
}
