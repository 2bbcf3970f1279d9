/**
 * `QUALITY_PATTERNS` and `extractQualityLabel` of `lib/utils/video.ts`: free-form
 * video metadata is classified against an ordered table of case-insensitive
 * keyword patterns, and the first entry whose pattern matches gives the label.
 *
 * Each RegExp of the table is written out as an alternation of atom sequences.
 * `web-?dl` becomes `web` `-?` `dl` and `中[文字]字幕` a character class; the
 * `/i` flag becomes ASCII case folding of the input, which is exact here because
 * every pattern character is lower-case ASCII or a CJK ideograph without case.
 */
module VideoQuality {
  import opened Wrappers
  import opened EcmaString

  /** One element of a RegExp alternative. */
  datatype Atom =
    | Lit(w: string)       // a keyword, compared after case folding
    | OneOf(cs: string)    // a character class `[...]`
    | Optional(c: char)    // `c?`
    | Spaces               // `\s*`
    | Boundary             // `\b`

  /** An alternation `alt1|alt2|...` of atom sequences. */
  type Pattern = seq<seq<Atom>>

  /** One entry of `QUALITY_PATTERNS`; its `label` is called `name` here, `label` being a Dafny keyword. */
  datatype QualityPattern = QualityPattern(pattern: Pattern, name: string, color: string)

  /** The `{ label, color }` result of `extractQualityLabel`. */
  datatype QualityLabel = QualityLabel(name: string, color: string)

  /** `text` holds the keyword `w` at position `i`, ignoring the case of ASCII letters. */
  predicate HasKeywordAt(text: string, i: nat, w: string) {
    i + |w| <= |text| && forall k :: 0 <= k < |w| ==> Fold(text[i + k]) == w[k]
  }

  /**
   * The atoms match `text` from position `i` along some path. Whether a RegExp
   * test succeeds does not depend on the order in which its engine backtracks,
   * so `\s*` and `-?` may consume as much or as little as the rest needs.
   */
  predicate MatchesAt(atoms: seq<Atom>, text: string, i: nat)
    requires i <= |text|
    decreases |atoms|, |text| - i
  {
    if atoms == [] then true
    else match atoms[0]
      case Lit(w) => HasKeywordAt(text, i, w) && MatchesAt(atoms[1..], text, i + |w|)
      case OneOf(cs) => i < |text| && Fold(text[i]) in cs && MatchesAt(atoms[1..], text, i + 1)
      case Optional(c) =>
        || MatchesAt(atoms[1..], text, i)
        || (i < |text| && Fold(text[i]) == c && MatchesAt(atoms[1..], text, i + 1))
      case Spaces =>
        || MatchesAt(atoms[1..], text, i)
        || (i < |text| && IsSpace(text[i]) && MatchesAt(atoms, text, i + 1))
      case Boundary => IsWordBoundary(text, i) && MatchesAt(atoms[1..], text, i)
  }

  /** `pattern.test(text)`: some alternative matches from some position. */
  predicate Matches(pattern: Pattern, text: string) {
    exists a, i :: 0 <= a < |pattern| && 0 <= i <= |text| && MatchesAt(pattern[a], text, i)
  }

  /** `QUALITY_PATTERNS`, highest priority first. */
  const QualityPatterns: seq<QualityPattern> := [
    Uhd, BluRay, FullHd, SuperClear, Hd720, Hd, WebDl, HdTv, Dvd, PreRelease, StandardDef, Dolby, Mandarin,
    Cantonese, ChineseSubtitles
  ]

  /** `/4k|2160p|uhd/i` */
  const Uhd := QualityPattern([[Lit("4k")], [Lit("2160p")], [Lit("uhd")]], "4K", "bg-amber-500")
  /** `/蓝光|藍光|bluray|blu-ray|remux/i` */
  const BluRay := QualityPattern([[Lit("蓝光")], [Lit("藍光")], [Lit("bluray")], [Lit("blu-ray")], [Lit("remux")]],
                                 "蓝光", "bg-blue-500")
  /** `/1080p|1080i|full\s*hd|fhd/i` */
  const FullHd := QualityPattern([[Lit("1080p")], [Lit("1080i")], [Lit("full"), Spaces, Lit("hd")], [Lit("fhd")]],
                                 "1080P", "bg-green-500")
  /** `/超清|超高清/i` */
  const SuperClear := QualityPattern([[Lit("超清")], [Lit("超高清")]], "超清", "bg-green-500")
  /** `/720p|hd720/i` */
  const Hd720 := QualityPattern([[Lit("720p")], [Lit("hd720")]], "720P", "bg-teal-500")
  /** `/\bhd\b|高清|hdr/i` */
  const Hd := QualityPattern([[Boundary, Lit("hd"), Boundary], [Lit("高清")], [Lit("hdr")]], "HD", "bg-teal-500")
  /** `/web-?dl|webrip/i` */
  const WebDl := QualityPattern([[Lit("web"), Optional('-'), Lit("dl")], [Lit("webrip")]], "WEB-DL", "bg-indigo-500")
  /** `/hdtv/i` */
  const HdTv := QualityPattern([[Lit("hdtv")]], "HDTV", "bg-teal-500")
  /** `/dvd|dvdrip/i` */
  const Dvd := QualityPattern([[Lit("dvd")], [Lit("dvdrip")]], "DVD", "bg-purple-500")
  /** `/抢先|枪版|ts版|ts\b|cam\b|hdts|预告/i` */
  const PreRelease := QualityPattern([[Lit("抢先")], [Lit("枪版")], [Lit("ts版")], [Lit("ts"), Boundary],
                                     [Lit("cam"), Boundary], [Lit("hdts")], [Lit("预告")]], "TS", "bg-orange-500")
  /** `/标清|sd\b/i` */
  const StandardDef := QualityPattern([[Lit("标清")], [Lit("sd"), Boundary]], "SD", "bg-gray-500")
  /** `/杜比|dolby|atmos/i` */
  const Dolby := QualityPattern([[Lit("杜比")], [Lit("dolby")], [Lit("atmos")]], "杜比", "bg-violet-500")
  /** `/国语|普通话|mandarin/i` */
  const Mandarin := QualityPattern([[Lit("国语")], [Lit("普通话")], [Lit("mandarin")]], "国语", "bg-sky-500")
  /** `/粤语|cantonese/i` */
  const Cantonese := QualityPattern([[Lit("粤语")], [Lit("cantonese")]], "粤语", "bg-sky-500")
  /** `/中[文字]字幕|中字|双语字幕/i` */
  const ChineseSubtitles := QualityPattern([[Lit("中"), OneOf("文字"), Lit("字幕")], [Lit("中字")], [Lit("双语字幕")]],
                                           "中字", "bg-cyan-500")

  /** The `{ label, color }` pair of a table entry. */
  function LabelOf(entry: QualityPattern): QualityLabel {
    QualityLabel(entry.name, entry.color)
  }

  /** Entry `j` is the first entry of `table` at or after `from` whose pattern matches `text`. */
  predicate IsFirstMatch(table: seq<QualityPattern>, text: string, from: nat, j: int) {
    && from <= j < |table|
    && Matches(table[j].pattern, text)
    && forall k :: from <= k < j ==> !Matches(table[k].pattern, text)
  }

  /** The scan of `table` from entry `from`: the label of the first entry that matches, first match wins. */
  function FirstMatch(table: seq<QualityPattern>, text: string, from: nat): (r: Option<QualityLabel>)
    requires from <= |table|
    ensures r.None? <==> forall j :: from <= j < |table| ==> !Matches(table[j].pattern, text)
    ensures r.Some? ==> exists j :: IsFirstMatch(table, text, from, j) && r.value == LabelOf(table[j])
    decreases |table| - from
  {
    if from == |table| then None
    else if Matches(table[from].pattern, text) then
      assert IsFirstMatch(table, text, from, from);
      Some(LabelOf(table[from]))
    else
      var r := FirstMatch(table, text, from + 1);
      assert r.Some? ==> exists j :: IsFirstMatch(table, text, from, j) && r.value == LabelOf(table[j]) by {
        if r.Some? {
          var j :| IsFirstMatch(table, text, from + 1, j) && r.value == LabelOf(table[j]);
          assert IsFirstMatch(table, text, from, j);
        }
      }
      r
  }

  /** First match wins for any table: the first entry that matches gives the scan's result. */
  lemma FirstMatchIs(table: seq<QualityPattern>, text: string, j: nat)
    requires IsFirstMatch(table, text, 0, j)
    ensures FirstMatch(table, text, 0) == Some(LabelOf(table[j]))
  {
    var r := FirstMatch(table, text, 0);
    assert r.Some?;
    var k :| IsFirstMatch(table, text, 0, k) && r.value == LabelOf(table[k]);
    assert k == j;
  }

  /** `s || ''`: an absent string reads as the empty one. */
  function OrEmpty(s: Option<string>): string {
    if s.Some? then s.value else ""
  }

  /** The search text `${remarks || ''} ${quality || ''}`. */
  function CombinedText(remarks: Option<string>, quality: Option<string>): string {
    OrEmpty(remarks) + " " + OrEmpty(quality)
  }

  /**
   * What `extractQualityLabel(remarks, quality)` returns: nothing for a blank
   * search text, otherwise the first table entry that matches it, if any.
   */
  function QualityLabelFor(remarks: Option<string>, quality: Option<string>): (r: Option<QualityLabel>)
    ensures r.Some? ==> Trim(CombinedText(remarks, quality)) != []
    ensures r.Some? ==> exists j :: IsFirstMatch(QualityPatterns, CombinedText(remarks, quality), 0, j)
                                    && r.value == LabelOf(QualityPatterns[j])
    ensures r.None? <==> Trim(CombinedText(remarks, quality)) == []
                         || forall j :: 0 <= j < |QualityPatterns| ==>
                              !Matches(QualityPatterns[j].pattern, CombinedText(remarks, quality))
  {
    var text := CombinedText(remarks, quality);
    if Trim(text) == [] then None else FirstMatch(QualityPatterns, text, 0)
  }

  /** `extractQualityLabel`: blank text gives nothing; otherwise the table is scanned in order. */
  method ExtractQualityLabel(remarks: Option<string>, quality: Option<string>) returns (r: Option<QualityLabel>)
    ensures r == QualityLabelFor(remarks, quality)
  {
    var text := OrEmpty(remarks) + " " + OrEmpty(quality);
    if Trim(text) == [] {
      return None;
    }
    r := ScanTable(QualityPatterns, text);
  }

  /** One step of the scan: entry `i` either matches or hands over to the rest of the table. */
  lemma FirstMatchStep(table: seq<QualityPattern>, text: string, i: nat)
    requires i < |table|
    ensures FirstMatch(table, text, i) ==
              if Matches(table[i].pattern, text) then Some(LabelOf(table[i])) else FirstMatch(table, text, i + 1)
  {
  }

  /** The `for...of` loop of `extractQualityLabel`: it returns at the first entry whose pattern matches. */
  method ScanTable(table: seq<QualityPattern>, text: string) returns (r: Option<QualityLabel>)
    ensures r == FirstMatch(table, text, 0)
  {
    var i := 0;
    while i < |table|
      invariant 0 <= i <= |table|
      invariant FirstMatch(table, text, i) == FirstMatch(table, text, 0)
    {
      var entry := table[i];
      var matched := Matches(entry.pattern, text);
      FirstMatchStep(table, text, i);
      if matched {
        return Some(QualityLabel(entry.name, entry.color));
      }
      i := i + 1;
    }
    return None;
  }

  // ----- Case insensitivity -----

  /** Every atom sequence matches two texts that differ only in ASCII case alike. */
  lemma {:induction false} MatchesAtUpToCase(atoms: seq<Atom>, t1: string, t2: string, i: nat)
    requires SameUpToCase(t1, t2) && i <= |t1|
    ensures MatchesAt(atoms, t1, i) == MatchesAt(atoms, t2, i)
    decreases |atoms|, |t1| - i
  {
    if atoms != [] {
      if i < |t1| {
        FoldKeepsClasses(t1[i], t2[i]);
      }
      if 0 < i {
        FoldKeepsClasses(t1[i - 1], t2[i - 1]);
      }
      match atoms[0]
      case Lit(w) =>
        if i + |w| <= |t1| {
          MatchesAtUpToCase(atoms[1..], t1, t2, i + |w|);
        }
      case OneOf(cs) =>
        if i < |t1| {
          MatchesAtUpToCase(atoms[1..], t1, t2, i + 1);
        }
      case Optional(c) =>
        MatchesAtUpToCase(atoms[1..], t1, t2, i);
        if i < |t1| {
          MatchesAtUpToCase(atoms[1..], t1, t2, i + 1);
        }
      case Spaces =>
        MatchesAtUpToCase(atoms[1..], t1, t2, i);
        if i < |t1| {
          MatchesAtUpToCase(atoms, t1, t2, i + 1);
        }
      case Boundary =>
        MatchesAtUpToCase(atoms[1..], t1, t2, i);
    }
  }

  /** Every pattern carries the `/i` flag: it matches two texts that differ only in ASCII case alike. */
  lemma MatchesUpToCase(pattern: Pattern, t1: string, t2: string)
    requires SameUpToCase(t1, t2)
    ensures Matches(pattern, t1) == Matches(pattern, t2)
  {
    forall a, i | 0 <= a < |pattern| && 0 <= i <= |t1|
      ensures MatchesAt(pattern[a], t1, i) == MatchesAt(pattern[a], t2, i)
    {
      MatchesAtUpToCase(pattern[a], t1, t2, i);
    }
  }

  /** The scan gives the same label for two texts that differ only in ASCII case. */
  lemma {:induction false} FirstMatchUpToCase(table: seq<QualityPattern>, t1: string, t2: string, from: nat)
    requires SameUpToCase(t1, t2) && from <= |table|
    ensures FirstMatch(table, t1, from) == FirstMatch(table, t2, from)
    decreases |table| - from
  {
    if from < |table| {
      MatchesUpToCase(table[from].pattern, t1, t2);
      FirstMatchUpToCase(table, t1, t2, from + 1);
    }
  }

  /** Changing the case of ASCII letters in either argument never changes the label. */
  lemma QualityLabelUpToCase(r1: Option<string>, q1: Option<string>, r2: Option<string>, q2: Option<string>)
    requires SameUpToCase(OrEmpty(r1), OrEmpty(r2)) && SameUpToCase(OrEmpty(q1), OrEmpty(q2))
    ensures QualityLabelFor(r1, q1) == QualityLabelFor(r2, q2)
  {
    var t1, t2 := CombinedText(r1, q1), CombinedText(r2, q2);
    assert SameUpToCase(t1, t2) by {
      forall i | 0 <= i < |t1| ensures Fold(t1[i]) == Fold(t2[i]) {
        if i < |OrEmpty(r1)| {
          assert t1[i] == OrEmpty(r1)[i] && t2[i] == OrEmpty(r2)[i];
        } else if i > |OrEmpty(r1)| {
          var k := i - |OrEmpty(r1)| - 1;
          assert t1[i] == OrEmpty(q1)[k] && t2[i] == OrEmpty(q2)[k];
        }
      }
    }
    TrimEmpty(t1);
    TrimEmpty(t2);
    forall i | 0 <= i < |t1| ensures IsSpace(t1[i]) == IsSpace(t2[i]) {
      FoldKeepsClasses(t1[i], t2[i]);
    }
    FirstMatchUpToCase(QualityPatterns, t1, t2, 0);
  }

  // ----- Blank input, table entries, first match wins -----

  /** Every character of `s` is a space; the empty string is one too. */
  predicate AllSpace(s: string) {
    forall i :: 0 <= i < |s| ==> IsSpace(s[i])
  }

  /** `!text.trim()` holds exactly when both arguments are absent, empty or all spaces. */
  lemma BlankIff(remarks: Option<string>, quality: Option<string>)
    ensures Trim(CombinedText(remarks, quality)) == [] <==> AllSpace(OrEmpty(remarks)) && AllSpace(OrEmpty(quality))
  {
    var r, q := OrEmpty(remarks), OrEmpty(quality);
    var text := CombinedText(remarks, quality);
    TrimEmpty(text);
    assert text[|r|] == ' ';
    if AllSpace(text) {
      assert AllSpace(r) by {
        forall i | 0 <= i < |r| ensures IsSpace(r[i]) { assert text[i] == r[i]; }
      }
      assert AllSpace(q) by {
        forall i | 0 <= i < |q| ensures IsSpace(q[i]) { assert text[|r| + 1 + i] == q[i]; }
      }
    }
    if AllSpace(r) && AllSpace(q) {
      forall i | 0 <= i < |text| ensures IsSpace(text[i]) {
        if i < |r| {
          assert text[i] == r[i];
        } else if i > |r| {
          assert text[i] == q[i - |r| - 1];
        }
      }
    }
  }

  /**
   * Nothing comes back exactly when both arguments are absent, empty or all
   * spaces, or when no pattern of the table matches the search text.
   */
  lemma NothingIff(remarks: Option<string>, quality: Option<string>)
    ensures QualityLabelFor(remarks, quality).None? <==>
              || (AllSpace(OrEmpty(remarks)) && AllSpace(OrEmpty(quality)))
              || forall j :: 0 <= j < |QualityPatterns| ==>
                   !Matches(QualityPatterns[j].pattern, CombinedText(remarks, quality))
  {
    BlankIff(remarks, quality);
  }

  /** The table's labels are pairwise distinct, so a label names one entry. */
  lemma LabelsDistinct(i: nat, j: nat)
    requires i < j < |QualityPatterns|
    ensures QualityPatterns[i].name != QualityPatterns[j].name
  {
  }

  /**
   * First match wins: for a search text that is not blank, the result is entry
   * `i` exactly when pattern `i` matches and no earlier pattern does.
   */
  lemma FirstMatchWins(remarks: Option<string>, quality: Option<string>, i: nat)
    requires i < |QualityPatterns|
    requires !(AllSpace(OrEmpty(remarks)) && AllSpace(OrEmpty(quality)))
    ensures QualityLabelFor(remarks, quality) == Some(LabelOf(QualityPatterns[i])) <==>
              IsFirstMatch(QualityPatterns, CombinedText(remarks, quality), 0, i)
  {
    var text := CombinedText(remarks, quality);
    var r := QualityLabelFor(remarks, quality);
    NothingIff(remarks, quality);
    if r.Some? {
      var j :| IsFirstMatch(QualityPatterns, text, 0, j) && r.value == LabelOf(QualityPatterns[j]);
      if j < i {
        LabelsDistinct(j, i);
      } else if i < j {
        LabelsDistinct(i, j);
      }
    }
  }

  // ----- Evidence about concrete texts -----

  /** Some character of `text` folds to `c`. */
  predicate Mentions(text: string, c: char) {
    exists j :: 0 <= j < |text| && Fold(text[j]) == c
  }

  /** A match needs every keyword of the alternative, so every character of it. */
  lemma {:induction false} MatchNeedsChar(atoms: seq<Atom>, text: string, i: nat, k: nat, c: char)
    requires i <= |text| && MatchesAt(atoms, text, i)
    requires k < |atoms| && atoms[k].Lit? && c in atoms[k].w
    ensures Mentions(text, c)
    decreases |atoms|, |text| - i
  {
    match atoms[0]
    case Lit(w) =>
      if k == 0 {
        var m :| 0 <= m < |w| && w[m] == c;
        assert Fold(text[i + m]) == c;
      } else {
        MatchNeedsChar(atoms[1..], text, i + |w|, k - 1, c);
      }
    case OneOf(cs) =>
      MatchNeedsChar(atoms[1..], text, i + 1, k - 1, c);
    case Optional(d) =>
      if MatchesAt(atoms[1..], text, i) {
        MatchNeedsChar(atoms[1..], text, i, k - 1, c);
      } else {
        MatchNeedsChar(atoms[1..], text, i + 1, k - 1, c);
      }
    case Spaces =>
      if MatchesAt(atoms[1..], text, i) {
        MatchNeedsChar(atoms[1..], text, i, k - 1, c);
      } else {
        MatchNeedsChar(atoms, text, i + 1, k, c);
      }
    case Boundary =>
      MatchNeedsChar(atoms[1..], text, i, k - 1, c);
  }

  /**
   * A pattern does not match a text that lacks, for each alternative `a`, the
   * character `cs[a]` of its keyword atom `ks[a]`.
   */
  lemma Unmatched(pattern: Pattern, text: string, ks: seq<nat>, cs: seq<char>)
    requires |ks| == |pattern| == |cs|
    requires forall a :: 0 <= a < |pattern| ==>
               ks[a] < |pattern[a]| && pattern[a][ks[a]].Lit? && cs[a] in pattern[a][ks[a]].w
    requires forall a :: 0 <= a < |cs| ==> !Mentions(text, cs[a])
    ensures !Matches(pattern, text)
  {
    forall a, i | 0 <= a < |pattern| && 0 <= i <= |text| ensures !MatchesAt(pattern[a], text, i) {
      if MatchesAt(pattern[a], text, i) {
        MatchNeedsChar(pattern[a], text, i, ks[a], cs[a]);
      }
    }
  }

  /** A single-keyword alternative matches wherever its keyword occurs. */
  lemma KeywordMatches(pattern: Pattern, a: nat, text: string, i: nat)
    requires a < |pattern| && |pattern[a]| == 1 && pattern[a][0].Lit?
    requires HasKeywordAt(text, i, pattern[a][0].w)
    ensures Matches(pattern, text)
  {
    assert MatchesAt(pattern[a], text, i);
  }
}
