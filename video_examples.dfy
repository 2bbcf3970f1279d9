/**
 * The examples documented beside `parseVideoTitle` and `QUALITY_PATTERNS` in
 * `lib/utils/video.ts`, and further worked cases (two tags, empty and nested
 * brackets, the HDTV word boundary, blank and unknown metadata, table order), as
 * facts about the model.
 */
module VideoExamples {
  import opened Wrappers
  import opened EcmaString
  import opened VideoTitle
  import opened VideoQuality

  // ----- parseVideoTitle -----

  /** A title whose scan and replace are known parses to the trimmed remainder and the first tag. */
  lemma ParsedAs(title: string, seg: Segment, removed: string, a: nat, clean: string)
    requires LeftmostFrom(title, 0) == Some(seg) && RemoveSegments(title) == removed
    requires IsTrimmedSlice(removed, a, clean)
    requires clean != [] && !IsSpace(clean[0]) && !IsSpace(clean[|clean| - 1])
    ensures ParseVideoTitle(title) == ParsedTitle(clean, Some(seg.inner))
  {
    TrimUnique(removed, a, clean);
  }

  lemma LeadingTagScan()
    ensures LeftmostFrom("[HD] 利刃出鞘3", 0) == Some(Segment(0, "HD"))
    ensures RemoveSegments("[HD] 利刃出鞘3") == " 利刃出鞘3"
  {
    var s := "[HD] 利刃出鞘3";
    assert IsSegmentAt(s, 0, "HD");
    TakeSegment(s, 0, "HD");
    SkipPlain(s, 4, |s|);
    assert s[4..|s|] == " 利刃出鞘3";
  }

  /** `"[HD] 利刃出鞘3"` gives the quality `HD` and the clean title `利刃出鞘3`. */
  lemma LeadingTag()
    ensures ParseVideoTitle("[HD] 利刃出鞘3") == ParsedTitle("利刃出鞘3", Some("HD"))
  {
    LeadingTagScan();
    ParsedAs("[HD] 利刃出鞘3", Segment(0, "HD"), " 利刃出鞘3", 1, "利刃出鞘3");
  }

  lemma TrailingTagScan()
    ensures LeftmostFrom("利刃出鞘3 [HD]", 0) == Some(Segment(6, "HD"))
    ensures RemoveSegments("利刃出鞘3 [HD]") == "利刃出鞘3 "
  {
    var s := "利刃出鞘3 [HD]";
    SkipPlain(s, 0, 6);
    assert IsSegmentAt(s, 6, "HD");
    TakeSegment(s, 6, "HD");
    assert s[0..6] == "利刃出鞘3 ";
  }

  /** `"利刃出鞘3 [HD]"` gives the same: the tag may stand at the end. */
  lemma TrailingTag()
    ensures ParseVideoTitle("利刃出鞘3 [HD]") == ParsedTitle("利刃出鞘3", Some("HD"))
  {
    TrailingTagScan();
    ParsedAs("利刃出鞘3 [HD]", Segment(6, "HD"), "利刃出鞘3 ", 0, "利刃出鞘3");
  }

  lemma TwoTagsScan()
    ensures LeftmostFrom("[HD][国语] 片名", 0) == Some(Segment(0, "HD"))
    ensures RemoveSegments("[HD][国语] 片名") == " 片名"
  {
    var s := "[HD][国语] 片名";
    assert IsSegmentAt(s, 0, "HD");
    TakeSegment(s, 0, "HD");
    TwoTagsRest();
  }

  lemma TwoTagsRest()
    ensures RemoveFrom("[HD][国语] 片名", 4) == " 片名"
  {
    var s := "[HD][国语] 片名";
    assert IsSegmentAt(s, 4, "国语");
    TakeSegment(s, 4, "国语");
    SkipPlain(s, 8, |s|);
    assert s[8..|s|] == " 片名";
  }

  /** `"[HD][国语] 片名"`: the first tag is the quality, and every tag is removed. */
  lemma TwoTags()
    ensures ParseVideoTitle("[HD][国语] 片名") == ParsedTitle("片名", Some("HD"))
  {
    TwoTagsScan();
    ParsedAs("[HD][国语] 片名", Segment(0, "HD"), " 片名", 1, "片名");
  }

  /** `"[仅字幕]"`: removing the only tag leaves nothing, so the title is kept as it was. */
  lemma OnlyTag()
    ensures ParseVideoTitle("[仅字幕]") == ParsedTitle("[仅字幕]", Some("仅字幕"))
  {
    var s := "[仅字幕]";
    assert IsSegmentAt(s, 0, "仅字幕");
    TakeSegment(s, 0, "仅字幕");
    assert RemoveSegments(s) == [];
  }

  /** A title without brackets comes back unchanged and without a quality. */
  lemma NoTag()
    ensures ParseVideoTitle("利刃出鞘3") == ParsedTitle("利刃出鞘3", None)
  {
    SkipPlain("利刃出鞘3", 0, 5);
  }

  /** `"[] 片名"`: empty brackets are no tag, since the pattern needs one character inside. */
  lemma EmptyBrackets()
    ensures ParseVideoTitle("[] 片名") == ParsedTitle("[] 片名", None)
  {
    var s := "[] 片名";
    assert FindClose(s, 1) == Some(1);
    assert SegmentAt(s, 0).None?;
    SkipPlain(s, 1, |s|);
    assert LeftmostFrom(s, 0) == LeftmostFrom(s, 1);
  }

  lemma NestedBracketsScan()
    ensures LeftmostFrom("[a[b]]", 0) == Some(Segment(0, "a[b"))
    ensures RemoveSegments("[a[b]]") == "]"
  {
    var s := "[a[b]]";
    assert IsSegmentAt(s, 0, "a[b");
    TakeSegment(s, 0, "a[b");
    SkipPlain(s, 5, |s|);
    assert s[5..|s|] == "]";
  }

  /** `"[a[b]]"`: brackets do not nest; a tag ends at the first `]`, and a `[` inside it is plain text. */
  lemma NestedBrackets()
    ensures ParseVideoTitle("[a[b]]") == ParsedTitle("]", Some("a[b"))
  {
    NestedBracketsScan();
    ParsedAs("[a[b]]", Segment(0, "a[b"), "]", 0, "]");
  }

  // ----- extractQualityLabel -----

  lemma EntryLabels()
    ensures LabelOf(QualityPatterns[2]) == QualityLabel("1080P", "bg-green-500")
    ensures LabelOf(QualityPatterns[7]) == QualityLabel("HDTV", "bg-teal-500")
  {
  }

  // ----- Texts an entry does not match -----

  /** Every character of `t` folds into `cs`, so `t` mentions only characters of `cs`. */
  lemma FoldsInto(t: string, cs: set<char>)
    requires forall j :: 0 <= j < |t| ==> Fold(t[j]) in cs
    ensures forall c :: Mentions(t, c) ==> c in cs
  {
    forall c | Mentions(t, c) ensures c in cs {
      var j :| 0 <= j < |t| && Fold(t[j]) == c;
    }
  }

  /** A text holding none of `4`, `6`, `u`, up to case, does not match the Uhd entry. */
  lemma NotUhd(t: string)
    requires !Mentions(t, '4') && !Mentions(t, '6') && !Mentions(t, 'u')
    ensures !Matches(Uhd.pattern, t)
  {
    Unmatched(Uhd.pattern, t, [0, 0, 0], ['4', '6', 'u']);
  }

  /** A text holding none of `蓝`, `藍`, `b`, `r`, up to case, does not match the BluRay entry. */
  lemma NotBluRay(t: string)
    requires !Mentions(t, '蓝') && !Mentions(t, '藍') && !Mentions(t, 'b') && !Mentions(t, 'r')
    ensures !Matches(BluRay.pattern, t)
  {
    Unmatched(BluRay.pattern, t, [0, 0, 0, 0, 0], ['蓝', '藍', 'b', 'b', 'r']);
  }

  /** A text holding none of `8`, `f`, up to case, does not match the FullHd entry. */
  lemma NotFullHd(t: string)
    requires !Mentions(t, '8') && !Mentions(t, 'f')
    ensures !Matches(FullHd.pattern, t)
  {
    Unmatched(FullHd.pattern, t, [0, 0, 0, 0], ['8', '8', 'f', 'f']);
  }

  /** A text holding none of `超`, up to case, does not match the SuperClear entry. */
  lemma NotSuperClear(t: string)
    requires !Mentions(t, '超')
    ensures !Matches(SuperClear.pattern, t)
  {
    Unmatched(SuperClear.pattern, t, [0, 0], ['超', '超']);
  }

  /** A text holding none of `7`, up to case, does not match the Hd720 entry. */
  lemma NotHd720(t: string)
    requires !Mentions(t, '7')
    ensures !Matches(Hd720.pattern, t)
  {
    Unmatched(Hd720.pattern, t, [0, 0], ['7', '7']);
  }

  /** A text holding none of `h`, `高`, up to case, does not match the Hd entry. */
  lemma NotHd(t: string)
    requires !Mentions(t, 'h') && !Mentions(t, '高')
    ensures !Matches(Hd.pattern, t)
  {
    Unmatched(Hd.pattern, t, [1, 0, 0], ['h', '高', 'h']);
  }

  /** A text holding none of `w`, up to case, does not match the WebDl entry. */
  lemma NotWebDl(t: string)
    requires !Mentions(t, 'w')
    ensures !Matches(WebDl.pattern, t)
  {
    Unmatched(WebDl.pattern, t, [0, 0], ['w', 'w']);
  }

  /** A text holding none of `h`, up to case, does not match the HdTv entry. */
  lemma NotHdTv(t: string)
    requires !Mentions(t, 'h')
    ensures !Matches(HdTv.pattern, t)
  {
    Unmatched(HdTv.pattern, t, [0], ['h']);
  }

  /** A text holding none of `v`, up to case, does not match the Dvd entry. */
  lemma NotDvd(t: string)
    requires !Mentions(t, 'v')
    ensures !Matches(Dvd.pattern, t)
  {
    Unmatched(Dvd.pattern, t, [0, 0], ['v', 'v']);
  }

  /** A text holding none of `抢`, `枪`, `t`, `c`, `预`, up to case, does not match the PreRelease entry. */
  lemma NotPreRelease(t: string)
    requires !Mentions(t, '抢') && !Mentions(t, '枪') && !Mentions(t, 't') && !Mentions(t, 'c') && !Mentions(t, '预')
    ensures !Matches(PreRelease.pattern, t)
  {
    Unmatched(PreRelease.pattern, t, [0, 0, 0, 0, 0, 0, 0], ['抢', '枪', 't', 't', 'c', 't', '预']);
  }

  /** A text holding none of `标`, `s`, up to case, does not match the StandardDef entry. */
  lemma NotStandardDef(t: string)
    requires !Mentions(t, '标') && !Mentions(t, 's')
    ensures !Matches(StandardDef.pattern, t)
  {
    Unmatched(StandardDef.pattern, t, [0, 0], ['标', 's']);
  }

  /** A text holding none of `杜`, `o`, `a`, up to case, does not match the Dolby entry. */
  lemma NotDolby(t: string)
    requires !Mentions(t, '杜') && !Mentions(t, 'o') && !Mentions(t, 'a')
    ensures !Matches(Dolby.pattern, t)
  {
    Unmatched(Dolby.pattern, t, [0, 0, 0], ['杜', 'o', 'a']);
  }

  /** A text holding none of `国`, `普`, `m`, up to case, does not match the Mandarin entry. */
  lemma NotMandarin(t: string)
    requires !Mentions(t, '国') && !Mentions(t, '普') && !Mentions(t, 'm')
    ensures !Matches(Mandarin.pattern, t)
  {
    Unmatched(Mandarin.pattern, t, [0, 0, 0], ['国', '普', 'm']);
  }

  /** A text holding none of `粤`, `c`, up to case, does not match the Cantonese entry. */
  lemma NotCantonese(t: string)
    requires !Mentions(t, '粤') && !Mentions(t, 'c')
    ensures !Matches(Cantonese.pattern, t)
  {
    Unmatched(Cantonese.pattern, t, [0, 0], ['粤', 'c']);
  }

  /** A text holding none of `中`, `双`, up to case, does not match the ChineseSubtitles entry. */
  lemma NotChineseSubtitles(t: string)
    requires !Mentions(t, '中') && !Mentions(t, '双')
    ensures !Matches(ChineseSubtitles.pattern, t)
  {
    Unmatched(ChineseSubtitles.pattern, t, [0, 0, 0], ['中', '中', '双']);
  }

  /** A non-blank text whose first matching entry is `j` gets the label of entry `j`. */
  lemma LabelIs(remarks: Option<string>, quality: Option<string>, text: string, j: nat)
    requires text == CombinedText(remarks, quality) && !AllSpace(OrEmpty(remarks))
    requires IsFirstMatch(QualityPatterns, text, 0, j)
    ensures QualityLabelFor(remarks, quality) == Some(LabelOf(QualityPatterns[j]))
  {
    FirstMatchWins(remarks, quality, j);
  }

  lemma FullHdText()
    ensures CombinedText(Some("1080p HD"), None) == "1080p HD "
    ensures !AllSpace(OrEmpty(Some("1080p HD")))
  {
    assert !IsSpace("1080p HD"[0]);
  }

  lemma FullHdMatches()
    ensures Matches(FullHd.pattern, "1080p HD ")
  {
    KeywordMatches(FullHd.pattern, 0, "1080p HD ", 0);
  }

  /** `"1080p HD "` holds no keyword character of the two entries before 1080P. */
  lemma FullHdLacks()
    ensures !Mentions("1080p HD ", '4') && !Mentions("1080p HD ", '6') && !Mentions("1080p HD ", 'u')
    ensures !Mentions("1080p HD ", '蓝') && !Mentions("1080p HD ", '藍') && !Mentions("1080p HD ", 'b')
    ensures !Mentions("1080p HD ", 'r')
  {
    FoldsInto("1080p HD ", {'1', '0', '8', 'p', ' ', 'h', 'd'});
  }

  lemma FullHdFirst()
    ensures IsFirstMatch(QualityPatterns, "1080p HD ", 0, 2)
  {
    FullHdLacks();
    NotUhd("1080p HD ");
    NotBluRay("1080p HD ");
    FullHdMatches();
  }

  /** `"1080p HD"` gives `1080P`: the 1080P entry precedes the HD entry, and the first match wins. */
  lemma FullHdBeforeHd()
    ensures QualityLabelFor(Some("1080p HD"), None) == Some(QualityLabel("1080P", "bg-green-500"))
  {
    FullHdText();
    FullHdFirst();
    EntryLabels();
    LabelIs(Some("1080p HD"), None, "1080p HD ", 2);
  }

  /** `"4K"` gives `4K`: the patterns ignore the case of ASCII letters. */
  lemma UpperCaseUhd()
    ensures QualityLabelFor(Some("4K"), None) == Some(QualityLabel("4K", "bg-amber-500"))
  {
    assert CombinedText(Some("4K"), None) == "4K ";
    assert !IsSpace("4K"[0]);
    assert HasKeywordAt("4K ", 0, "4k");
    KeywordMatches(Uhd.pattern, 0, "4K ", 0);
    LabelIs(Some("4K"), None, "4K ", 0);
  }

  /** `"4k"` and `"4K"` get the same label. */
  lemma LowerCaseUhd()
    ensures QualityLabelFor(Some("4k"), None) == QualityLabelFor(Some("4K"), None)
  {
    assert Fold('k') == Fold('K');
    QualityLabelUpToCase(Some("4k"), None, Some("4K"), None);
  }

  /** `\bhd\b` needs `hd` as a whole word: in `"HDTV "` the letter after `HD` is a word character. */
  lemma HdtvNotHd()
    ensures !Matches(Hd.pattern, "HDTV ")
  {
    var t := "HDTV ";
    forall a, i | 0 <= a < |Hd.pattern| && 0 <= i <= |t| ensures !MatchesAt(Hd.pattern[a], t, i) {
      if a == 0 {
        if i == 0 {
          assert !IsWordBoundary(t, 2);
        } else if i < |t| {
          assert Fold(t[i]) != 'h';
        }
      } else if MatchesAt(Hd.pattern[a], t, i) {
        MatchNeedsChar(Hd.pattern[a], t, i, 0, if a == 1 then '高' else 'r');
      }
    }
  }

  lemma HdtvMatchesHdTv()
    ensures Matches(HdTv.pattern, "HDTV ")
  {
    assert HasKeywordAt("HDTV ", 0, "hdtv");
    KeywordMatches(HdTv.pattern, 0, "HDTV ", 0);
  }

  /** `"HDTV"` gives `HDTV`, not `HD`: the HD entry comes first but wants `hd` as a whole word. */
  lemma HdtvIsNotHd()
    ensures QualityLabelFor(Some("HDTV"), None) == Some(QualityLabel("HDTV", "bg-teal-500"))
  {
    assert CombinedText(Some("HDTV"), None) == "HDTV ";
    assert !IsSpace("HDTV"[0]);
    HdtvFirst();
    EntryLabels();
    LabelIs(Some("HDTV"), None, "HDTV ", 7);
  }

  /** `"HDTV "` holds no keyword character of the entries before HDTV, except those of HD. */
  lemma HdtvLacks()
    ensures !Mentions("HDTV ", '4') && !Mentions("HDTV ", '6') && !Mentions("HDTV ", 'u')
    ensures !Mentions("HDTV ", '蓝') && !Mentions("HDTV ", '藍') && !Mentions("HDTV ", 'b')
    ensures !Mentions("HDTV ", 'r') && !Mentions("HDTV ", '8') && !Mentions("HDTV ", 'f')
    ensures !Mentions("HDTV ", '超') && !Mentions("HDTV ", '7') && !Mentions("HDTV ", 'w')
  {
    FoldsInto("HDTV ", {'h', 'd', 't', 'v', ' '});
  }

  lemma HdtvFirst()
    ensures IsFirstMatch(QualityPatterns, "HDTV ", 0, 7)
  {
    var t := "HDTV ";
    HdtvLacks();
    NotUhd(t);
    NotBluRay(t);
    NotFullHd(t);
    NotSuperClear(t);
    NotHd720(t);
    HdtvNotHd();
    NotWebDl(t);
    HdtvMatchesHdTv();
  }

  /** Absent metadata gives no label. */
  lemma AbsentGivesNothing()
    ensures QualityLabelFor(None, None) == None
  {
    BlankIff(None, None);
  }

  /** Empty metadata gives no label. */
  lemma EmptyGivesNothing()
    ensures QualityLabelFor(Some(""), Some("")) == None
  {
    NothingIff(Some(""), Some(""));
  }

  /** Blank metadata gives no label: `trim` removes every space, including U+3000. */
  lemma BlankGivesNothing()
    ensures QualityLabelFor(Some(" \t"), Some("\U{3000}")) == None
  {
    assert AllSpace(" \t") && AllSpace("\U{3000}");
    NothingIff(Some(" \t"), Some("\U{3000}"));
  }

  /** `"未知格式 "` holds none of the ASCII keyword characters that rule the entries out. */
  lemma UnknownLacksLatin()
    ensures !Mentions("未知格式 ", '4') && !Mentions("未知格式 ", '6') && !Mentions("未知格式 ", 'u')
    ensures !Mentions("未知格式 ", 'b') && !Mentions("未知格式 ", 'r') && !Mentions("未知格式 ", '8')
    ensures !Mentions("未知格式 ", 'f') && !Mentions("未知格式 ", '7') && !Mentions("未知格式 ", 'h')
    ensures !Mentions("未知格式 ", 'w') && !Mentions("未知格式 ", 'v') && !Mentions("未知格式 ", 't')
    ensures !Mentions("未知格式 ", 'c') && !Mentions("未知格式 ", 's') && !Mentions("未知格式 ", 'o')
    ensures !Mentions("未知格式 ", 'a') && !Mentions("未知格式 ", 'm')
  {
    FoldsInto("未知格式 ", {'未', '知', '格', '式', ' '});
  }

  /** `"未知格式 "` holds none of the CJK keyword characters that rule the entries out. */
  lemma UnknownLacksCjk()
    ensures !Mentions("未知格式 ", '蓝') && !Mentions("未知格式 ", '藍') && !Mentions("未知格式 ", '超')
    ensures !Mentions("未知格式 ", '高') && !Mentions("未知格式 ", '抢') && !Mentions("未知格式 ", '枪')
    ensures !Mentions("未知格式 ", '预') && !Mentions("未知格式 ", '标') && !Mentions("未知格式 ", '杜')
    ensures !Mentions("未知格式 ", '国') && !Mentions("未知格式 ", '普') && !Mentions("未知格式 ", '粤')
    ensures !Mentions("未知格式 ", '中') && !Mentions("未知格式 ", '双')
  {
    FoldsInto("未知格式 ", {'未', '知', '格', '式', ' '});
  }

  /** `"未知格式 "` matches none of the first eight entries. */
  lemma UnknownMissesFirst()
    ensures !Matches(Uhd.pattern, "未知格式 ") && !Matches(BluRay.pattern, "未知格式 ")
    ensures !Matches(FullHd.pattern, "未知格式 ") && !Matches(SuperClear.pattern, "未知格式 ")
    ensures !Matches(Hd720.pattern, "未知格式 ") && !Matches(Hd.pattern, "未知格式 ")
    ensures !Matches(WebDl.pattern, "未知格式 ") && !Matches(HdTv.pattern, "未知格式 ")
  {
    var t := "未知格式 ";
    UnknownLacksLatin();
    UnknownLacksCjk();
    NotUhd(t);
    NotBluRay(t);
    NotFullHd(t);
    NotSuperClear(t);
    NotHd720(t);
    NotHd(t);
    NotWebDl(t);
    NotHdTv(t);
  }

  /** `"未知格式 "` matches none of the last seven entries. */
  lemma UnknownMissesRest()
    ensures !Matches(Dvd.pattern, "未知格式 ") && !Matches(PreRelease.pattern, "未知格式 ")
    ensures !Matches(StandardDef.pattern, "未知格式 ") && !Matches(Dolby.pattern, "未知格式 ")
    ensures !Matches(Mandarin.pattern, "未知格式 ") && !Matches(Cantonese.pattern, "未知格式 ")
    ensures !Matches(ChineseSubtitles.pattern, "未知格式 ")
  {
    var t := "未知格式 ";
    UnknownLacksLatin();
    UnknownLacksCjk();
    NotDvd(t);
    NotPreRelease(t);
    NotStandardDef(t);
    NotDolby(t);
    NotMandarin(t);
    NotCantonese(t);
    NotChineseSubtitles(t);
  }

  /** `"未知格式"` matches no entry, so it gets no label although it is not blank. */
  lemma UnknownGivesNothing()
    ensures QualityLabelFor(Some("未知格式"), None) == None
  {
    assert CombinedText(Some("未知格式"), None) == "未知格式 ";
    UnknownMissesFirst();
    UnknownMissesRest();
    forall j | 0 <= j < |QualityPatterns| ensures !Matches(QualityPatterns[j].pattern, "未知格式 ") {
    }
    NothingIff(Some("未知格式"), None);
  }

  // ----- Priority order -----

  /** The table with the 720P and HD entries swapped. */
  const HdBefore720: seq<QualityPattern> := [
    Uhd, BluRay, FullHd, SuperClear, Hd, Hd720, WebDl, HdTv, Dvd, PreRelease, StandardDef, Dolby, Mandarin,
    Cantonese, ChineseSubtitles
  ]

  lemma BothMatch720()
    ensures Matches(Hd720.pattern, "720p HD ")
  {
    KeywordMatches(Hd720.pattern, 0, "720p HD ", 0);
  }

  /** `hd` stands in `"720p HD "` as a whole word. */
  lemma BothMatchHd()
    ensures Matches(Hd.pattern, "720p HD ")
  {
    var t := "720p HD ";
    assert IsWordBoundary(t, 5) && HasKeywordAt(t, 5, "hd") && IsWordBoundary(t, 7);
    assert MatchesAt(Hd.pattern[0], t, 5);
  }

  /** `"720p HD "` holds no keyword character of the four entries before 720P. */
  lemma BothLacks()
    ensures !Mentions("720p HD ", '4') && !Mentions("720p HD ", '6') && !Mentions("720p HD ", 'u')
    ensures !Mentions("720p HD ", '蓝') && !Mentions("720p HD ", '藍') && !Mentions("720p HD ", 'b')
    ensures !Mentions("720p HD ", 'r') && !Mentions("720p HD ", '8') && !Mentions("720p HD ", 'f')
    ensures !Mentions("720p HD ", '超')
  {
    FoldsInto("720p HD ", {'7', '2', '0', 'p', ' ', 'h', 'd'});
  }

  lemma BothEarlierEntries()
    ensures !Matches(Uhd.pattern, "720p HD ") && !Matches(BluRay.pattern, "720p HD ")
    ensures !Matches(FullHd.pattern, "720p HD ") && !Matches(SuperClear.pattern, "720p HD ")
  {
    var t := "720p HD ";
    BothLacks();
    NotUhd(t);
    NotBluRay(t);
    NotFullHd(t);
    NotSuperClear(t);
  }

  lemma Hd720First()
    ensures IsFirstMatch(QualityPatterns, "720p HD ", 0, 4)
  {
    BothEarlierEntries();
    BothMatch720();
  }

  lemma HdFirstWhenSwapped()
    ensures IsFirstMatch(HdBefore720, "720p HD ", 0, 4)
  {
    BothEarlierEntries();
    BothMatchHd();
  }

  /**
   * Priority, not specificity, decides: `"720p HD "` holds keywords of both the
   * 720P and the HD entry, and swapping the two entries changes the label.
   */
  lemma OrderDecides()
    ensures FirstMatch(QualityPatterns, "720p HD ", 0) == Some(QualityLabel("720P", "bg-teal-500"))
    ensures FirstMatch(HdBefore720, "720p HD ", 0) == Some(QualityLabel("HD", "bg-teal-500"))
  {
    Hd720First();
    HdFirstWhenSwapped();
    FirstMatchIs(QualityPatterns, "720p HD ", 4);
    FirstMatchIs(HdBefore720, "720p HD ", 4);
  }
}
