# Video title and quality-label helpers, in Dafny

This project models the quality-tag helpers of a video-aggregation front end (`lib/utils/video.ts`):

- `parseVideoTitle(title)` finds the bracket tags of a title such as `"[HD] 利刃出鞘3"`. These are the matches of the global RegExp `/\[([^\]]+)\]/g`. The first tag's inner text becomes `quality`. Every tag is removed and the rest is trimmed to give `cleanTitle`. If that leaves nothing, the original title is returned instead.
- `extractQualityLabel(remarks, quality)` joins its two optional arguments with a space. It returns nothing for a blank text. Otherwise it scans the 15-entry `QUALITY_PATTERNS` table in order and returns the `{ label, color }` of the first entry whose case-insensitive RegExp matches.

Modules:

- `Wrappers` (`wrappers.dfy`): `Option`.
- `EcmaString` (`ecma_string.dfy`): the pieces of ECMAScript string and RegExp semantics the helpers depend on.
  - The WhiteSpace and LineTerminator sets of sections 12.2 and 12.3 of ECMA-262, which `String.prototype.trim` strips and `\s` matches. They include U+3000, the ideographic space.
  - `trim`, specified by what it keeps.
  - The ASCII case folding of a non-Unicode `/i` RegExp.
  - `IsWordChar` and `\b` from section 22.2 of ECMA-262.
- `VideoTitle` (`video_title.dfy`): `parseVideoTitle`.
  - The bracket RegExp is tried position by position. After a match, the scan resumes right behind it, as `lastIndex` does for a global RegExp.
  - `replace` keeps every character where no match starts and drops each match.
- `VideoQuality` (`quality_label.dfy`): `QUALITY_PATTERNS` and `extractQualityLabel`.
  - The constant `QualityPatterns` and its 15 named entries (`Uhd` … `ChineseSubtitles`) transcribe `QUALITY_PATTERNS` (lines 32-48). The entries keep their order, labels and colors.
  - Each RegExp of the table is written out as an alternation of atom sequences: keyword, character class, `c?`, `\s*` and `\b`, matched along any path.
  - The scan is a method with a loop, proved equal to the recursive first-match function.
- `VideoExamples` (`video_examples.dfy`): the examples documented in the code, and further worked cases, proved about the model. The further cases cover two tags, empty and nested brackets, the HDTV word boundary, blank and unknown metadata, and table order.

Brackets do not nest. A tag runs from a `[` to the first `]` after it, and its inner text may itself hold a `[`. In `"[a[b]]"` that makes the tag `[a[b]` and leaves a lone `]` (`VideoExamples.NestedBrackets`). This follows the RegExp in the code.

## Model

| member | source | states |
|---|---|---|
| EcmaString.Trim | lib/utils/video.ts:20 | `trim` removes a space-only prefix and suffix and keeps a contiguous slice that neither starts nor ends with a space |
| EcmaString.TrimStart | lib/utils/video.ts:20 | `trimStart` removes a space-only prefix and stops at a non-space: the result is a suffix of the input, empty or starting with a non-space |
| EcmaString.TrimEnd | lib/utils/video.ts:20 | `trimEnd` removes a space-only suffix and stops at a non-space: the result is a prefix of the input, empty or ending with a non-space |
| EcmaString.IsSpace | lib/utils/video.ts:20 | the characters `trim` strips and `\s` matches: WhiteSpace and LineTerminator of ECMA-262; no contract of its own, it is the class that the `Trim*` contracts and `TrimEmpty` are stated in |
| EcmaString.TrimEmpty | lib/utils/video.ts:56 | a trimmed string is empty exactly when every character of the original is a space |
| EcmaString.TrimUnique | lib/utils/video.ts:20 | any slice with space-only surroundings and no space at either end is the trimmed string, so `trim` is fully determined |
| EcmaString.Fold | lib/utils/video.ts:33-47 | the `/i` flag without `u`: folding leaves no upper-case ASCII letter, keeps ASCII inside ASCII and non-ASCII outside it, lowers `A`-`Z` by 32 and fixes every other character |
| EcmaString.FoldSame | lib/utils/video.ts:33-47 | two characters fold alike exactly when they are equal or are an upper-case ASCII letter and its lower-case form, so `/i` relates no other pairs |
| EcmaString.FoldKeepsClasses | lib/utils/video.ts:35-43 | two characters that are equal up to ASCII case are both spaces or both not, and both word characters or both not |
| EcmaString.IsWordBoundary | lib/utils/video.ts:38 | `\b` between positions `e-1` and `e`: exactly one side is a word character, with both ends of the text reading as non-word; no contract of its own, `VideoExamples.HdtvNotHd` and `VideoExamples.BothMatchHd` show it at work |
| VideoTitle.FindClose | lib/utils/video.ts:10 | the position found holds a `]` at or after the start position |
| VideoTitle.FindCloseIsFirst | lib/utils/video.ts:10 | `[^\]]+` stops at the first `]`: none lies before the one found, and none at all when none is found |
| VideoTitle.SegmentAt | lib/utils/video.ts:10 | a match tried at one position fits inside the title |
| VideoTitle.SegmentAtSound | lib/utils/video.ts:10 | a match found at a position is a bracket segment there: `[`, a non-empty inner text without `]`, then `]` |
| VideoTitle.SegmentAtFinds | lib/utils/video.ts:10 | every bracket segment at a position is the match found there, so the segment at a position is unique |
| VideoTitle.LeftmostFrom | lib/utils/video.ts:14 | the match found from a position starts at or after it and fits in the title |
| VideoTitle.LeftmostFromIsLeftmost | lib/utils/video.ts:14-18 | the match found is a segment and no segment starts between the start position and it; no match is found only when no segment starts at or after the start position |
| VideoTitle.ParseVideoTitle | lib/utils/video.ts:5-27 | a quality is non-empty and holds no `]`; the clean title is empty exactly when the title is empty |
| VideoTitle.QualityIsLeftmostSegment | lib/utils/video.ts:11-26 | the quality is absent exactly when the title has no segment, and then the title comes back unchanged; otherwise the quality is the inner text of the leftmost segment |
| VideoTitle.RemoveFrom | lib/utils/video.ts:20 | the replace from a position never yields more than the characters left; what it keeps and drops is characterised by `RemoveSkipsLeftmost`, `RemoveKeepsOnly` and `RemoveLeavesNoSegment` |
| VideoTitle.RemoveSegments | lib/utils/video.ts:20 | `title.replace(bracketRegex, '')` is never longer than the title; it is `RemoveFrom` from position 0 |
| VideoTitle.RemoveSkipsLeftmost | lib/utils/video.ts:20 | the replace keeps every character up to the next match and resumes right behind it; with no match left it keeps the rest unchanged |
| VideoTitle.SkipPlain | lib/utils/video.ts:20 | a stretch without `[` holds no match: the scan passes over it and the replace keeps it unchanged |
| VideoTitle.TakeSegment | lib/utils/video.ts:14-20 | a segment at a position is the match found from there, and the replace resumes right behind it |
| VideoTitle.RemoveKeepsOnly | lib/utils/video.ts:20 | the replace only keeps characters of the title: a character absent from the title is absent from the result |
| VideoTitle.RemoveLeavesNoSegment | lib/utils/video.ts:20 | after the replace no bracket segment is left anywhere, even where removing a segment brings a `[` and a `]` together |
| VideoTitle.CleanTitleIsClean | lib/utils/video.ts:20-24 | the clean title is the title itself, or it holds no segment and has no space at either end |
| VideoTitle.TrimNoSegment | lib/utils/video.ts:20 | trimming a segment-free string leaves it segment-free |
| VideoTitle.CleanTitleIdempotent | lib/utils/video.ts:5-27 | parsing the clean title again gives the same clean title, and no quality unless the title was kept unchanged |
| VideoQuality.MatchesAt | lib/utils/video.ts:33-47 | one alternative matches from a position along some path; no contract of its own, characterised by `MatchesAtUpToCase`, `MatchNeedsChar` and `KeywordMatches` |
| VideoQuality.Matches | lib/utils/video.ts:59 | `pattern.test(text)` succeeds when some alternative matches from some position; no contract of its own, characterised by `MatchesUpToCase`, `Unmatched` and `KeywordMatches` |
| VideoQuality.OrEmpty | lib/utils/video.ts:55 | an absent argument reads as the empty string, as the fallback to `''` does; no contract of its own, used by `BlankIff` and `NothingIff` |
| VideoQuality.CombinedText | lib/utils/video.ts:55 | the template-literal text, the two arguments joined by one space; no contract of its own, characterised by `BlankIff` |
| VideoQuality.FirstMatch | lib/utils/video.ts:58-64 | the scan gives nothing exactly when no entry from the start position on matches; otherwise it gives the label and color of the first entry that matches |
| VideoQuality.FirstMatchIs | lib/utils/video.ts:58-61 | for any table, the first entry that matches gives the scan's result |
| VideoQuality.QualityLabelFor | lib/utils/video.ts:54-65 | a label is the `{ label, color }` pair of the first matching table entry, and only comes back for a non-blank text; nothing comes back exactly when the text is blank or no entry matches |
| VideoQuality.ExtractQualityLabel | lib/utils/video.ts:54-65 | the method returns what `QualityLabelFor` specifies |
| VideoQuality.ScanTable | lib/utils/video.ts:58-64 | the `for...of` loop with its early return computes the first-match scan of the table |
| VideoQuality.MatchesAtUpToCase | lib/utils/video.ts:33-47 | every atom sequence matches two texts that are equal up to ASCII case alike |
| VideoQuality.MatchesUpToCase | lib/utils/video.ts:33-47 | every `/i` pattern matches two texts that are equal up to ASCII case alike |
| VideoQuality.FirstMatchUpToCase | lib/utils/video.ts:58-64 | the scan gives the same result for two texts that are equal up to ASCII case |
| VideoQuality.QualityLabelUpToCase | lib/utils/video.ts:54-65 | changing the case of ASCII letters in either argument never changes the result |
| VideoQuality.BlankIff | lib/utils/video.ts:55-56 | the joined text is blank exactly when both arguments are absent, empty or all spaces |
| VideoQuality.NothingIff | lib/utils/video.ts:55-64 | nothing comes back exactly when both arguments are absent, empty or all spaces, or when no entry matches |
| VideoQuality.LabelsDistinct | lib/utils/video.ts:32-48 | the 15 labels of the table are pairwise distinct |
| VideoQuality.FirstMatchWins | lib/utils/video.ts:58-62 | for a non-blank text, the result is entry `i` exactly when pattern `i` matches and no earlier pattern does |
| VideoQuality.MatchNeedsChar | lib/utils/video.ts:32-48 | an atom sequence only matches a text that holds every character of its keywords, up to case |
| VideoQuality.Unmatched | lib/utils/video.ts:32-48 | a pattern does not match a text that lacks one keyword character of each alternative |
| VideoQuality.KeywordMatches | lib/utils/video.ts:32-48 | a single-keyword alternative matches wherever its keyword occurs, up to case |
| VideoExamples.LeadingTag | lib/utils/video.ts:7 | `"[HD] 利刃出鞘3"` gives the clean title `利刃出鞘3` and the quality `HD` |
| VideoExamples.TrailingTag | lib/utils/video.ts:8 | `"利刃出鞘3 [HD]"` gives the clean title `利刃出鞘3` and the quality `HD` |
| VideoExamples.TwoTags | lib/utils/video.ts:18-20 | `"[HD][国语] 片名"` gives `片名` and `HD`: the first tag is the quality and every tag is removed |
| VideoExamples.OnlyTag | lib/utils/video.ts:24 | `"[仅字幕]"` keeps the title unchanged, with the quality `仅字幕` |
| VideoExamples.NoTag | lib/utils/video.ts:12-16 | a title without brackets comes back unchanged and without a quality |
| VideoExamples.EmptyBrackets | lib/utils/video.ts:10 | `"[] 片名"` holds no tag, since the inner text must not be empty |
| VideoExamples.NestedBrackets | lib/utils/video.ts:10 | `"[a[b]]"` gives the quality `a[b` and the clean title `]`: a tag ends at the first `]` and may hold a `[` |
| VideoExamples.FullHdBeforeHd | lib/utils/video.ts:35-38 | `"1080p HD"` gives `1080P` with `bg-green-500`, because the 1080P entry precedes the HD entry |
| VideoExamples.UpperCaseUhd | lib/utils/video.ts:33 | `"4K"` gives `4K` with `bg-amber-500` |
| VideoExamples.LowerCaseUhd | lib/utils/video.ts:33 | `"4k"` and `"4K"` give the same result |
| VideoExamples.HdtvNotHd | lib/utils/video.ts:38 | `\bhd\b` does not match `"HDTV "`, because `HD` is followed by a word character there |
| VideoExamples.HdtvIsNotHd | lib/utils/video.ts:38-40 | `"HDTV"` gives `HDTV`, not `HD` |
| VideoExamples.AbsentGivesNothing | lib/utils/video.ts:55-56 | two absent arguments give nothing |
| VideoExamples.EmptyGivesNothing | lib/utils/video.ts:55-56 | two empty arguments give nothing |
| VideoExamples.BlankGivesNothing | lib/utils/video.ts:55-56 | arguments of tabs, blanks and U+3000 give nothing |
| VideoExamples.UnknownGivesNothing | lib/utils/video.ts:58-64 | `"未知格式"` matches no entry, so it gets nothing although it is not blank |
| VideoExamples.OrderDecides | lib/utils/video.ts:37-38 | the scan of the search text `"720p HD "` gives `720P` with the table as written, but `HD` once the two entries are swapped: priority decides, not specificity |

## Left out

- `components/PremiumPasswordGate.tsx`, `components/LocaleProvider.tsx`, `lib/utils/chinese-convert.ts`, `lib/config/site-config.ts` and `types/opencc-js.d.ts` are not part of this model. They hold React UI state, DOM updates, `fetch`, session storage, timers, environment reads, a wrapper over an external conversion library and type declarations only.
- There is no general RegExp engine. The 15 patterns are written by hand as atom sequences. A match is "some path matches", which is exactly what `test` answers for these patterns, since their result does not depend on the order in which alternatives are tried.
- Case insensitivity is modelled as ASCII folding only. A non-Unicode `/i` RegExp never maps a non-ASCII character to an ASCII one, and the CJK keywords have no case. `EcmaString.FoldSame` states exactly which pairs the model folds together. Full Unicode case folding is therefore not modelled.
- Strings are sequences of Unicode code points rather than UTF-16 code units. No keyword, bracket or space lies outside the Basic Multilingual Plane, so surrogate pairs are not modelled.
- The color strings are opaque data paired with their labels; their meaning as style classes is not modelled.
- The `label` field of a table entry is called `name`, because `label` is a Dafny keyword.
- `matchAll` building the array of all matches is not modelled as an array. Only its first element is used, and that is the leftmost match, `LeftmostFrom(title, 0)`.
- FindClose, SegmentAt and LeftmostFrom: their own contracts give only bounds and, for FindClose, the `]` found. What they find is stated by `FindCloseIsFirst`, `SegmentAtSound`, `SegmentAtFinds` and `LeftmostFromIsLeftmost`.
- ExtractQualityLabel: a RegExp test has no side effect here, because the table's RegExps have no `g` flag and `test` keeps no `lastIndex` between calls. The model therefore treats each test as a pure predicate.
