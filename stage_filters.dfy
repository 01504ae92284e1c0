/** The area, chapter and difficulty predicates getStagesEnhanced applies
    to the stage list, and the list they leave. */
module StageFilters {
  import opened Wrappers
  import opened Text
  import opened Stages
  import Lists

  // ---------------------------------------------------------------------
  // Lookup tables kept in their declaration order
  // ---------------------------------------------------------------------

  /** A table of string keys and word lists, in the order Object.entries
      walks it. */
  type WordTable = seq<(string, seq<string>)>

  /** table[key]: the list of the first entry with that key. */
  function KeyLookup(table: WordTable, key: string): (r: Option<seq<string>>)
    ensures r.None? <==> forall i :: 0 <= i < |table| ==> table[i].0 != key
  {
    if table == [] then None
    else if table[0].0 == key then Some(table[0].1)
    else KeyLookup(table[1..], key)
  }

  /** The first entry whose list holds word. */
  function WordLookup(table: WordTable, word: string): (r: Option<(string, seq<string>)>)
    ensures r.None? <==> forall i :: 0 <= i < |table| ==> word !in table[i].1
    ensures r.Some? ==> r.value in table && word in r.value.1
  {
    if table == [] then None
    else if word in table[0].1 then Some(table[0])
    else WordLookup(table[1..], word)
  }

  /** The entry at index i is the one found for its key when no earlier
      entry has that key. */
  lemma {:induction false} KeyLookupAt(table: WordTable, i: nat)
    requires i < |table|
    requires forall j :: 0 <= j < i ==> table[j].0 != table[i].0
    ensures KeyLookup(table, table[i].0) == Some(table[i].1)
  {
    if i > 0 {
      KeyLookupAt(table[1..], i - 1);
    }
  }

  /** The entry at index i is the one found for a word of its list when no
      earlier entry lists that word. */
  lemma {:induction false} WordLookupAt(table: WordTable, i: nat, word: string)
    requires i < |table| && word in table[i].1
    requires forall j :: 0 <= j < i ==> word !in table[j].1
    ensures WordLookup(table, word) == Some(table[i])
  {
    if i > 0 {
      WordLookupAt(table[1..], i - 1, word);
    }
  }

  // ---------------------------------------------------------------------
  // The area filter
  // ---------------------------------------------------------------------

  /** The Chinese area names and the English category words each stands
      for. */
  const AreaTable: WordTable := [
    ("主线", ["campaign", "main", "story"]),
    ("活动", ["event", "special"]),
    ("悬赏", ["bounty", "commission"]),
    ("总力战", ["totalassault", "raid", "ta"]),
    ("困难", ["hard", "difficult"]),
    ("任务", ["mission", "quest"]),
    ("挑战", ["challenge"]),
    ("演习", ["exercise", "practice"])
  ]

  /** Whether a stage with this Category belongs to the requested area. A
      falsy Category never does. The lower-cased category containing the
      lower-cased area is a match. Otherwise an area that is a Chinese key
      (looked up as typed) matches when the category contains one of its
      English words; an area whose lower-cased form is one of the English
      words matches when the category contains the Chinese name or one of
      the words of that entry. */
  predicate AreaMatches(category: Option<string>, area: string) {
    TruthyStr(category) &&
    var cat := Lower(category.value);
    var searchArea := Lower(area);
    if Contains(cat, searchArea) then true
    else match KeyLookup(AreaTable, area)
      case Some(english) => AnyContained(cat, english)
      case None =>
        match WordLookup(AreaTable, searchArea)
        case Some(entry) => Contains(cat, Lower(entry.0)) || AnyContained(cat, entry.1)
        case None => false
  }

  /** Every English word is lower case, starts with a letter, and is
      listed under one Chinese name only; the Chinese names are distinct
      and contain no ASCII letter. */
  lemma AreaTableShape()
    ensures forall i, j :: 0 <= i < j < |AreaTable| ==> AreaTable[i].0 != AreaTable[j].0
    ensures forall i :: 0 <= i < |AreaTable| ==> Lower(AreaTable[i].0) == AreaTable[i].0
    ensures forall i :: 0 <= i < |AreaTable| ==> AreaTable[i].0 != [] && AreaTable[i].0[0] > 'z'
    ensures forall i, k :: 0 <= i < |AreaTable| && 0 <= k < |AreaTable[i].1| ==>
              AreaTable[i].1[k] != [] && 'a' <= AreaTable[i].1[k][0] <= 'z'
    ensures forall i, j, w :: 0 <= j < i < |AreaTable| && w in AreaTable[i].1 ==> w !in AreaTable[j].1
  {
  }

  /** A stage without a truthy Category matches no area. */
  lemma AreaNeedsCategory(category: Option<string>, area: string)
    requires !TruthyStr(category)
    ensures !AreaMatches(category, area)
  {
  }

  /** Asking for a Chinese area name finds exactly the categories that
      contain the name or one of the English words listed for it. */
  lemma AreaChineseName(category: Option<string>, i: nat)
    requires i < |AreaTable|
    ensures AreaMatches(category, AreaTable[i].0) <==>
              TruthyStr(category)
              && (Contains(Lower(category.value), AreaTable[i].0)
                  || AnyContained(Lower(category.value), AreaTable[i].1))
  {
    AreaTableShape();
    KeyLookupAt(AreaTable, i);
  }

  /** Asking for an English word, in any letter case, finds exactly the
      categories that contain the word, the Chinese name of its entry or
      any English word of that entry. */
  lemma AreaEnglishWord(category: Option<string>, area: string, i: nat, k: nat)
    requires i < |AreaTable| && k < |AreaTable[i].1|
    requires Lower(area) == AreaTable[i].1[k]
    ensures AreaMatches(category, area) <==>
              TruthyStr(category)
              && (Contains(Lower(category.value), AreaTable[i].0)
                  || AnyContained(Lower(category.value), AreaTable[i].1))
  {
    AreaTableShape();
    assert area != [] && LowerChar(area[0]) == Lower(area)[0];
    assert KeyLookup(AreaTable, area) == None;
    WordLookupAt(AreaTable, i, Lower(area));
    if TruthyStr(category) && Contains(Lower(category.value), Lower(area)) {
      assert AnyContained(Lower(category.value), AreaTable[i].1);
    }
  }

  // ---------------------------------------------------------------------
  // The chapter filter
  // ---------------------------------------------------------------------

  /** The chapter the filter reads off an ID: parseInt of the first two
      characters for five or six, of the first character for four, and
      none for any other length. */
  function FilterChapterOfId(id: int): Option<int> {
    var idStr := IntToString(id);
    if |idStr| == 5 || |idStr| == 6 then ParseInt(idStr[..2])
    else if |idStr| == 4 then ParseInt(idStr[..1])
    else None
  }

  /** The phrases searched for in a stage name, built from the chapter as
      typed. */
  function ChapterPatterns(chapter: string): seq<string> {
    [ "第" + chapter + "章",
      "chapter " + chapter,
      "ch" + chapter,
      chapter + "-",
      "-" + chapter + "-",
      "第" + chapter + "话",
      "episode " + chapter ]
  }

  /** Whether a stage belongs to the requested chapter: its Stage equals
      parseInt(chapter); or the chapter read off its Id does; or its
      Chapter contains the lower-cased request or is contained in it; or
      its lower-cased Name contains one of the lower-cased phrases or the
      lower-cased request itself. */
  predicate ChapterMatches(s: Stage, chapter: string) {
    var chapterStr := Lower(chapter);
    var chapterNum := ParseInt(chapter);
    || (s.Stage.Some? && chapterNum.Some? && s.Stage.value == chapterNum.value)
    || (s.Id.Some? && chapterNum.Some? && FilterChapterOfId(s.Id.value) == chapterNum)
    || (TruthyStr(s.Chapter) &&
         (Contains(Lower(s.Chapter.value), chapterStr) || Contains(chapterStr, Lower(s.Chapter.value))))
    || (TruthyStr(s.Name) &&
         (AnyContained(Lower(s.Name.value), LowerAll(ChapterPatterns(chapter)))
          || Contains(Lower(s.Name.value), chapterStr)))
  }

  /** The same test without the phrase list: every phrase contains the
      request, so a name containing a phrase contains the request. */
  predicate ChapterMatchesPlain(s: Stage, chapter: string) {
    var chapterStr := Lower(chapter);
    var chapterNum := ParseInt(chapter);
    || (s.Stage.Some? && chapterNum.Some? && s.Stage.value == chapterNum.value)
    || (s.Id.Some? && chapterNum.Some? && FilterChapterOfId(s.Id.value) == chapterNum)
    || (TruthyStr(s.Chapter) &&
         (Contains(Lower(s.Chapter.value), chapterStr) || Contains(chapterStr, Lower(s.Chapter.value))))
    || (TruthyStr(s.Name) && Contains(Lower(s.Name.value), chapterStr))
  }

  /** Each lower-cased phrase contains the lower-cased request. */
  lemma PatternsContainChapter(chapter: string, i: nat)
    requires i < |ChapterPatterns(chapter)|
    ensures Contains(LowerAll(ChapterPatterns(chapter))[i], Lower(chapter))
  {
    var p := ChapterPatterns(chapter);
    var a, b := PatternAround(chapter, i);
    assert p[i] == a + chapter + b;
    LowerConcat(a + chapter, b);
    LowerConcat(a, chapter);
    ContainsInfix(Lower(a), Lower(chapter), Lower(b));
  }

  /** The text before and after the request in phrase i. */
  lemma PatternAround(chapter: string, i: nat) returns (a: string, b: string)
    requires i < |ChapterPatterns(chapter)|
    ensures ChapterPatterns(chapter)[i] == a + chapter + b
  {
    if i == 0 {
      a, b := "第", "章";
    } else if i == 1 {
      a, b := "chapter ", "";
    } else if i == 2 {
      a, b := "ch", "";
    } else if i == 3 {
      a, b := "", "-";
    } else if i == 4 {
      a, b := "-", "-";
    } else if i == 5 {
      a, b := "第", "话";
    } else {
      a, b := "episode ", "";
    }
    assert a + chapter + b == ChapterPatterns(chapter)[i];
  }

  /** The phrase list never decides the outcome: the chapter filter is the
      same test as the one without it. */
  lemma ChapterPatternsRedundant(s: Stage, chapter: string)
    ensures ChapterMatches(s, chapter) <==> ChapterMatchesPlain(s, chapter)
  {
    if TruthyStr(s.Name) {
      var name := Lower(s.Name.value);
      var lowered := LowerAll(ChapterPatterns(chapter));
      if AnyContained(name, lowered) {
        var i :| 0 <= i < |lowered| && Contains(name, lowered[i]);
        PatternsContainChapter(chapter, i);
        ContainsTransitive(name, lowered[i], Lower(chapter));
      }
    }
  }

  /** The chapter filter does not depend on the letter case of the
      request. */
  lemma ChapterCaseInsensitive(s: Stage, chapter: string)
    ensures ChapterMatches(s, Lower(chapter)) == ChapterMatches(s, chapter)
  {
    ChapterPatternsRedundant(s, chapter);
    ChapterPatternsRedundant(s, Lower(chapter));
    ParseIntLower(chapter);
    LowerIdempotent(chapter);
  }

  /** An ID rendered with four digits is read as its first digit, one
      rendered with five or six as its first two: the value of the ID
      divided by p, the power of ten of the digits left over. */
  lemma FilterChapterOfLength(n: nat, taken: nat, p: nat)
    requires (|NatToString(n)| == 4 && taken == 1) || (5 <= |NatToString(n)| <= 6 && taken == 2)
    requires p == Pow10(|NatToString(n)| - taken)
    ensures FilterChapterOfId(n) == Some(n / p)
  {
    var str := NatToString(n);
    assert IntToString(n) == str;
    NatToStringPrefix(n, taken);
    var head := str[..taken];
    ParseIntOfDigits(head);
    assert FilterChapterOfId(n) == ParseInt(head);
  }

  /** A number from 10^(k-1) up to 10^k is rendered with k digits. */
  lemma DigitCount(n: nat, k: nat)
    requires k >= 2 && Pow10(k - 1) <= n < Pow10(k)
    ensures |NatToString(n)| == k
  {
    NatToStringLength(n, k - 1);
    NatToStringLength(n, k);
  }

  /** The chapter read off an ID by its number of digits: 1000 to 99999
      give n / 1000 and 100000 to 999999 give n / 10000. */
  lemma FilterChapterByMagnitude(n: nat)
    requires 1000 <= n < 1000000
    ensures n < 100000 ==> FilterChapterOfId(n) == Some(n / 1000)
    ensures 100000 <= n ==> FilterChapterOfId(n) == Some(n / 10000)
  {
    assert Pow10(3) == 1000 && Pow10(4) == 10000 && Pow10(5) == 100000 && Pow10(6) == 1000000;
    if n < 10000 {
      DigitCount(n, 4);
      FilterChapterOfLength(n, 1, 1000);
    } else if n < 100000 {
      DigitCount(n, 5);
      FilterChapterOfLength(n, 2, 1000);
    } else {
      DigitCount(n, 6);
      FilterChapterOfLength(n, 2, 10000);
    }
  }

  /** The examples of the source's own comments: 30101 and 301001 are in
      chapter 30, 1001 in chapter 1. */
  lemma FilterChapterExamples()
    ensures FilterChapterOfId(30101) == Some(30)
    ensures FilterChapterOfId(301001) == Some(30)
    ensures FilterChapterOfId(1001) == Some(1)
  {
    FilterChapterByMagnitude(30101);
    assert 30101 / 1000 == 30;
    FilterChapterByMagnitude(301001);
    assert 301001 / 10000 == 30;
    FilterChapterByMagnitude(1001);
    assert 1001 / 1000 == 1;
  }

  /** The filter and the display path read stage 1001 differently: it is
      shown in chapter "10" but found under chapter "1" and not under
      "10". */
  lemma ChapterOf1001Disagrees(s: Stage)
    requires s.Id == Some(1001) && s.Stage.None? && s.Chapter.None? && s.Name.None?
    requires s.StageNumber.None?
    ensures DerivedChapter(s) == Some("10")
    ensures ChapterMatches(s, "1") && !ChapterMatches(s, "10")
  {
    DerivedFrom1001(s);
    ChapterFilterOf1001(s);
  }

  lemma ChapterFilterOf1001(s: Stage)
    requires s.Id == Some(1001) && s.Stage.None? && s.Chapter.None? && s.Name.None?
    ensures ChapterMatches(s, "1") && !ChapterMatches(s, "10")
  {
    FilterChapterByMagnitude(1001);
    ParseOne();
    ParseTen();
    ChapterOfIdOnly(s, "1", 1);
    ChapterOfIdOnly(s, "10", 10);
  }

  lemma ParseOne()
    ensures ParseInt("1") == Some(1)
  {
    ParseIntOfDigits("1");
  }

  /** A stage with nothing but an Id is matched by the chapter read off
      it alone. */
  lemma ChapterOfIdOnly(s: Stage, chapter: string, n: int)
    requires s.Id.Some? && s.Stage.None? && s.Chapter.None? && s.Name.None?
    requires ParseInt(chapter) == Some(n)
    ensures ChapterMatches(s, chapter) <==> FilterChapterOfId(s.Id.value) == Some(n)
  {
  }

  // ---------------------------------------------------------------------
  // The difficulty filter
  // ---------------------------------------------------------------------

  /** lo, lo + 1, ..., hi. */
  function Span(lo: int, hi: int): (r: seq<int>)
    ensures forall x :: x in r <==> lo <= x <= hi
    decreases hi - lo
  {
    if hi < lo then [] else [lo] + Span(lo + 1, hi)
  }

  /** The levels each difficulty word stands for. */
  const LevelRanges: map<string, seq<int>> := map[
    "简单" := Span(1, 5), "普通" := Span(6, 15), "困难" := Span(16, 25), "极难" := Span(26, 35),
    "easy" := Span(1, 5), "normal" := Span(6, 15), "hard" := Span(16, 25), "extreme" := Span(26, 35)
  ]

  const NormalWords: seq<string> := ["normal", "campaign", "story", "main"]
  const HardWords: seq<string> := ["hard", "difficult", "challenge"]
  const EasyWords: seq<string> := ["easy", "normal", "tutorial", "beginner"]
  const ExtremeWords: seq<string> := ["extreme", "hell", "nightmare", "insane", "expert"]
  const HellWords: seq<string> := ["extreme", "hell", "nightmare", "insane"]

  /** The category words each difficulty word stands for. */
  const DifficultyAliases: map<string, seq<string>> := map[
    "普通" := NormalWords, "困难" := HardWords, "简单" := EasyWords, "极难" := ExtremeWords,
    "normal" := NormalWords, "hard" := HardWords, "easy" := EasyWords, "extreme" := ExtremeWords,
    "hell" := HellWords, "nightmare" := HellWords, "expert" := ExtremeWords,
    "challenge" := HardWords, "story" := NormalWords, "main" := NormalWords,
    "tutorial" := EasyWords, "beginner" := EasyWords
  ]

  /** Whether a stage has the requested difficulty. With a Level and a
      request that parses as an integer the answer is Level == n and
      nothing else is looked at. Otherwise a Level inside the range of the
      lower-cased request matches, as does a Category that contains one of
      its category words or the request itself, and a Type or Name that
      contains the request. */
  predicate DifficultyMatches(s: Stage, difficulty: string) {
    var ds := Lower(difficulty);
    if s.Level.Some? && ParseInt(difficulty).Some? then
      s.Level.value == ParseInt(difficulty).value
    else
      || (s.Level.Some? && ds in LevelRanges && s.Level.value in LevelRanges[ds])
      || (TruthyStr(s.Category) &&
           ((ds in DifficultyAliases && AnyContained(Lower(s.Category.value), DifficultyAliases[ds]))
            || Contains(Lower(s.Category.value), ds)))
      || (TruthyStr(s.Type) && Contains(Lower(s.Type.value), ds))
      || (TruthyStr(s.Name) && Contains(Lower(s.Name.value), ds))
  }

  /** A numeric request against a stage with a Level is decided by the
      Level alone, whatever the other fields contain. */
  lemma DifficultyNumberIsExact(s: Stage, difficulty: string, n: int)
    requires s.Level.Some? && ParseInt(difficulty) == Some(n)
    ensures DifficultyMatches(s, difficulty) <==> s.Level.value == n
  {
  }

  /** A request that does not parse as a number reads exactly the
      conditions after the early return. */
  lemma DifficultyWordCases(s: Stage, difficulty: string)
    requires ParseInt(difficulty).None?
    ensures var ds := Lower(difficulty);
            DifficultyMatches(s, difficulty) <==>
              || (s.Level.Some? && ds in LevelRanges && s.Level.value in LevelRanges[ds])
              || (TruthyStr(s.Category) &&
                   ((ds in DifficultyAliases && AnyContained(Lower(s.Category.value), DifficultyAliases[ds]))
                    || Contains(Lower(s.Category.value), ds)))
              || (TruthyStr(s.Type) && Contains(Lower(s.Type.value), ds))
              || (TruthyStr(s.Name) && Contains(Lower(s.Name.value), ds))
  {
  }

  /** A word that starts with a lower-case ASCII letter or a CJK
      ideograph. */
  predicate IsWord(w: string) {
    w != [] && ('a' <= w[0] <= 'z' || '\U{4E00}' <= w[0] <= '\U{9FFF}')
  }

  /** A word is not a number to parseInt. */
  lemma ParseIntOfWord(w: string)
    requires IsWord(w)
    ensures ParseInt(w) == None
  {
    assert TrimStart(w) == w;
  }

  /** Every key of the difficulty tables is a word. */
  lemma DifficultyKeysAreWords()
    ensures forall k :: k in DifficultyAliases ==> IsWord(k)
    ensures forall k :: k in LevelRanges ==> IsWord(k)
  {
  }

  /** The level bands: 简单/easy is 1 to 5, 普通/normal 6 to 15, 困难/hard
      16 to 25, 极难/extreme 26 to 35, in any letter case of the English
      word. */
  lemma DifficultyLevelBand(s: Stage, difficulty: string, lo: int, hi: int)
    requires s.Level.Some? && lo <= s.Level.value <= hi
    requires var ds := Lower(difficulty);
             || ((ds == "简单" || ds == "easy") && lo == 1 && hi == 5)
             || ((ds == "普通" || ds == "normal") && lo == 6 && hi == 15)
             || ((ds == "困难" || ds == "hard") && lo == 16 && hi == 25)
             || ((ds == "极难" || ds == "extreme") && lo == 26 && hi == 35)
    ensures DifficultyMatches(s, difficulty)
  {
    var ds := Lower(difficulty);
    assert ds in LevelRanges && LevelRanges[ds] == Span(lo, hi);
    DifficultyKeysAreWords();
    ParseIntOfWord(ds);
    ParseIntLower(difficulty);
  }

  /** A request with category words finds every stage whose Category
      contains one of them, unless the request is a number and the stage
      has a Level. */
  lemma DifficultyAlias(s: Stage, difficulty: string, k: nat)
    requires Lower(difficulty) in DifficultyAliases && k < |DifficultyAliases[Lower(difficulty)]|
    requires TruthyStr(s.Category) && Contains(Lower(s.Category.value), DifficultyAliases[Lower(difficulty)][k])
    ensures DifficultyMatches(s, difficulty)
  {
    var ds := Lower(difficulty);
    DifficultyKeysAreWords();
    ParseIntOfWord(ds);
    ParseIntLower(difficulty);
    assert AnyContained(Lower(s.Category.value), DifficultyAliases[ds]);
  }

  /** The difficulty filter does not depend on the letter case of the
      request. */
  lemma DifficultyCaseInsensitive(s: Stage, difficulty: string)
    ensures DifficultyMatches(s, Lower(difficulty)) == DifficultyMatches(s, difficulty)
  {
    ParseIntLower(difficulty);
    LowerIdempotent(difficulty);
  }

  // ---------------------------------------------------------------------
  // The filters together
  // ---------------------------------------------------------------------

  /** The stages left after the area, chapter and difficulty filters, each
      applied only when its argument is truthy. */
  function FilterStages(stages: seq<Stage>, area: Option<string>, chapter: Option<string>,
                        difficulty: Option<string>): seq<Stage>
  {
    var byArea := if TruthyStr(area) then Lists.Filter(stages, (s: Stage) => AreaMatches(s.Category, area.value)) else stages;
    var byChapter := if TruthyStr(chapter) then Lists.Filter(byArea, (s: Stage) => ChapterMatches(s, chapter.value)) else byArea;
    if TruthyStr(difficulty) then Lists.Filter(byChapter, (s: Stage) => DifficultyMatches(s, difficulty.value)) else byChapter
  }

  /** Whether a stage passes every filter that is switched on. */
  predicate PassesFilters(s: Stage, area: Option<string>, chapter: Option<string>, difficulty: Option<string>) {
    && (TruthyStr(area) ==> AreaMatches(s.Category, area.value))
    && (TruthyStr(chapter) ==> ChapterMatches(s, chapter.value))
    && (TruthyStr(difficulty) ==> DifficultyMatches(s, difficulty.value))
  }

  /** The filters keep exactly the stages that pass all of them, each as
      often as it occurs in the input. */
  lemma FilterStagesKeeps(stages: seq<Stage>, area: Option<string>, chapter: Option<string>, difficulty: Option<string>)
    ensures forall s :: multiset(FilterStages(stages, area, chapter, difficulty))[s]
              == (if PassesFilters(s, area, chapter, difficulty) then multiset(stages)[s] else 0)
  {
    var byArea := if TruthyStr(area) then Lists.Filter(stages, (s: Stage) => AreaMatches(s.Category, area.value)) else stages;
    var byChapter := if TruthyStr(chapter) then Lists.Filter(byArea, (s: Stage) => ChapterMatches(s, chapter.value)) else byArea;
    if TruthyStr(area) {
      Lists.FilterCounts(stages, (s: Stage) => AreaMatches(s.Category, area.value));
    }
    if TruthyStr(chapter) {
      Lists.FilterCounts(byArea, (s: Stage) => ChapterMatches(s, chapter.value));
    }
    if TruthyStr(difficulty) {
      Lists.FilterCounts(byChapter, (s: Stage) => DifficultyMatches(s, difficulty.value));
    }
  }

  /** Without any filter argument the stage list comes back unchanged. */
  lemma NoFilters(stages: seq<Stage>)
    ensures FilterStages(stages, None, None, None) == stages
  {
  }
}
