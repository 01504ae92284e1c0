/** Stage metadata: the searchable stage-number field, the chapter and
    stage number simplifyStageData derives from an ID, the display name
    generateStageName builds, and getCategoryDisplayName. */
module Stages {
  import opened Wrappers
  import opened Text

  /** A stage record. Absent fields are None; Id, Stage and Level are
      integers, the other fields text. */
  datatype Stage = Stage(
    Id: Option<int>,
    Name: Option<string>,
    Category: Option<string>,
    Type: Option<string>,
    Stage: Option<int>,
    Level: Option<int>,
    Terrain: Option<string>,
    Chapter: Option<string>,
    StageNumber: Option<string>)

  // ---------------------------------------------------------------------
  // createSearchableStageNumber
  // ---------------------------------------------------------------------

  /** The parts the searchable field is made of, in the order they are
      pushed: StageNumber, Stage, "Chapter-Stage" and Id, each only when
      its fields are truthy. */
  function SearchableParts(s: Stage): seq<string> {
    (if TruthyStr(s.StageNumber) then [s.StageNumber.value] else [])
    + (if TruthyNum(s.Stage) then [IntToString(s.Stage.value)] else [])
    + (if TruthyStr(s.Chapter) && TruthyNum(s.Stage) then [s.Chapter.value + "-" + IntToString(s.Stage.value)] else [])
    + (if TruthyNum(s.Id) then [IntToString(s.Id.value)] else [])
  }

  /** createSearchableStageNumber: pushes the present parts, then joins
      them with single spaces. Every part can be found in the result, and
      the result is empty exactly when StageNumber, Stage and Id are all
      falsy. */
  method CreateSearchableStageNumber(s: Stage) returns (r: string)
    ensures r == JoinSpaces(SearchableParts(s))
    ensures forall i :: 0 <= i < |SearchableParts(s)| ==> Contains(r, SearchableParts(s)[i])
    ensures r == "" <==> !TruthyStr(s.StageNumber) && !TruthyNum(s.Stage) && !TruthyNum(s.Id)
  {
    var parts: seq<string> := [];
    if TruthyStr(s.StageNumber) {
      parts := parts + [s.StageNumber.value];
    }
    if TruthyNum(s.Stage) {
      parts := parts + [IntToString(s.Stage.value)];
    }
    if TruthyStr(s.Chapter) && TruthyNum(s.Stage) {
      parts := parts + [s.Chapter.value + "-" + IntToString(s.Stage.value)];
    }
    if TruthyNum(s.Id) {
      parts := parts + [IntToString(s.Id.value)];
    }
    assert parts == SearchableParts(s);
    r := JoinSpaces(parts);
    forall i | 0 <= i < |parts|
      ensures Contains(r, parts[i])
    {
      JoinSpacesContains(parts, i);
    }
    SearchablePartsNonEmpty(s);
    JoinSpacesEmpty(parts);
  }

  lemma SearchablePartsNonEmpty(s: Stage)
    ensures forall i :: 0 <= i < |SearchableParts(s)| ==> SearchableParts(s)[i] != ""
    ensures SearchableParts(s) == [] <==> !TruthyStr(s.StageNumber) && !TruthyNum(s.Stage) && !TruthyNum(s.Id)
  {
    if TruthyNum(s.Stage) {
      IntToStringEndsWithDigit(s.Stage.value);
    }
    if TruthyNum(s.Id) {
      IntToStringEndsWithDigit(s.Id.value);
    }
  }

  // ---------------------------------------------------------------------
  // Chapter and stage number derived from the ID (simplifyStageData)
  // ---------------------------------------------------------------------

  /** The chapter simplifyStageData reports. A truthy Chapter field is
      kept; otherwise, for a truthy Id, the first two digits (IDs of four
      or more characters) or the first digit (two or three characters) are
      parsed, and a positive value replaces the field. */
  function DerivedChapter(s: Stage): Option<string> {
    if TruthyNum(s.Id) && !TruthyStr(s.Chapter) then
      var parsed := ChapterOfIdString(IntToString(s.Id.value));
      if parsed.Some? && parsed.value > 0 then Some(IntToString(parsed.value)) else s.Chapter
    else s.Chapter
  }

  /** The stage number simplifyStageData reports. A truthy StageNumber is
      kept; otherwise, for a truthy Id, the third and fourth characters
      (four or more) or everything after the first (two or three) are
      parsed, and any number replaces the field. */
  function DerivedStageNumber(s: Stage): Option<string> {
    if TruthyNum(s.Id) && !TruthyStr(s.StageNumber) then
      var parsed := StageNumberOfIdString(IntToString(s.Id.value));
      if parsed.Some? then Some(IntToString(parsed.value)) else s.StageNumber
    else s.StageNumber
  }

  /** parseInt of the first two characters of the ID (four or more
      characters) or of its first character (two or three). */
  function ChapterOfIdString(idStr: string): Option<int> {
    if |idStr| >= 4 then ParseInt(idStr[..2])
    else if |idStr| >= 2 then ParseInt(idStr[..1])
    else None
  }

  /** parseInt of the third and fourth characters of the ID (four or more
      characters) or of all but its first (two or three). */
  function StageNumberOfIdString(idStr: string): Option<int> {
    if |idStr| >= 4 then ParseInt(idStr[2..4])
    else if |idStr| >= 2 then ParseInt(idStr[1..])
    else None
  }

  /** Fields that are present and truthy are never overwritten, and
      nothing is derived without a truthy Id. */
  lemma DerivationKeepsFields(s: Stage)
    ensures TruthyStr(s.Chapter) || !TruthyNum(s.Id) ==> DerivedChapter(s) == s.Chapter
    ensures TruthyStr(s.StageNumber) || !TruthyNum(s.Id) ==> DerivedStageNumber(s) == s.StageNumber
  {
  }

  lemma DerivedChapterIs(s: Stage, c: int)
    requires TruthyNum(s.Id) && !TruthyStr(s.Chapter)
    requires ChapterOfIdString(IntToString(s.Id.value)) == Some(c) && c > 0
    ensures DerivedChapter(s) == Some(IntToString(c))
  {
  }

  lemma DerivedStageNumberIs(s: Stage, r: int)
    requires TruthyNum(s.Id) && !TruthyStr(s.StageNumber)
    requires StageNumberOfIdString(IntToString(s.Id.value)) == Some(r)
    ensures DerivedStageNumber(s) == Some(IntToString(r))
  {
  }

  /** For an ID of four or more digits the chapter is its first two digits
      and the stage number the value of its third and fourth digits. */
  lemma DerivedFromLongId(s: Stage, n: nat)
    requires s.Id == Some(n as int) && n >= 1000
    requires !TruthyStr(s.Chapter) && !TruthyStr(s.StageNumber)
    ensures var len := |NatToString(n)|;
            len >= 4
            && DerivedChapter(s) == Some(IntToString(n / Pow10(len - 2)))
            && DerivedStageNumber(s) == Some(IntToString((n / Pow10(len - 4)) % 100))
  {
    assert IntToString(s.Id.value) == NatToString(n);
    var c := LeadingTwoDigits(n);
    DerivedChapterIs(s, c);
    var r := ThirdAndFourthDigits(n);
    DerivedStageNumberIs(s, r);
  }

  lemma LeadingTwoDigits(n: nat) returns (c: nat)
    requires n >= 1000
    ensures |NatToString(n)| >= 4
    ensures c == n / Pow10(|NatToString(n)| - 2) && c >= 10
    ensures ChapterOfIdString(NatToString(n)) == Some(c as int)
  {
    var idStr := NatToString(n);
    c := LeadingTwoValue(n);
    NatToStringPrefix(n, 2);
    var v := DigitsValue(idStr[..2]);
    assert v == c;
    LongChapterDigits(idStr);
    assert ChapterOfIdString(idStr) == Some(v as int);
  }

  lemma LeadingTwoValue(n: nat) returns (c: nat)
    requires n >= 1000
    ensures |NatToString(n)| >= 4
    ensures c == n / Pow10(|NatToString(n)| - 2) && c >= 10
  {
    var len := |NatToString(n)|;
    NatToStringLength(n, 3);
    NatToStringLength(n, len - 1);
    var p := Pow10(len - 2);
    assert Pow10(len - 1) == 10 * p;
    DivGe(n, 10, p);
    c := n / p;
  }

  lemma LongChapterDigits(idStr: string)
    requires |idStr| >= 4 && AllDigits(idStr[..2])
    ensures ChapterOfIdString(idStr) == Some(DigitsValue(idStr[..2]) as int)
  {
    ParseIntOfDigits(idStr[..2]);
  }

  lemma LongStageDigits(idStr: string)
    requires |idStr| >= 4 && AllDigits(idStr[2..4])
    ensures StageNumberOfIdString(idStr) == Some(DigitsValue(idStr[2..4]) as int)
  {
    ParseIntOfDigits(idStr[2..4]);
  }

  lemma ShortChapterDigits(idStr: string)
    requires 2 <= |idStr| < 4 && AllDigits(idStr[..1])
    ensures ChapterOfIdString(idStr) == Some(DigitsValue(idStr[..1]) as int)
  {
    ParseIntOfDigits(idStr[..1]);
  }

  lemma ShortStageDigits(idStr: string)
    requires 2 <= |idStr| < 4 && AllDigits(idStr[1..])
    ensures StageNumberOfIdString(idStr) == Some(DigitsValue(idStr[1..]) as int)
  {
    ParseIntOfDigits(idStr[1..]);
  }

  lemma ThirdAndFourthDigits(n: nat) returns (r: nat)
    requires n >= 1000
    ensures |NatToString(n)| >= 4
    ensures r == (n / Pow10(|NatToString(n)| - 4)) % 100
    ensures StageNumberOfIdString(NatToString(n)) == Some(r as int)
  {
    r := ThirdAndFourthValue(n);
    LongStageDigits(NatToString(n));
  }

  lemma ThirdAndFourthValue(n: nat) returns (r: nat)
    requires n >= 1000
    ensures var str := NatToString(n);
            && |str| >= 4 && AllDigits(str[2..4]) && DigitsValue(str[2..4]) == r
            && r == (n / Pow10(|str| - 4)) % 100
  {
    var str := NatToString(n);
    NatToStringLength(n, 3);
    NatToStringInfix(n, 2, 2);
    assert str[2..2 + 2] == str[2..4];
    assert Pow10(2) == 100;
    r := DigitsValue(str[2..4]);
  }

  /** For an ID of two or three digits the chapter is its first digit and
      the stage number the value of the digits after it. */
  lemma DerivedFromShortId(s: Stage, n: nat)
    requires s.Id == Some(n as int) && 10 <= n < 1000
    requires !TruthyStr(s.Chapter) && !TruthyStr(s.StageNumber)
    ensures var len := |NatToString(n)|;
            2 <= len <= 3
            && DerivedChapter(s) == Some(IntToString(n / Pow10(len - 1)))
            && DerivedStageNumber(s) == Some(IntToString(n % Pow10(len - 1)))
  {
    assert IntToString(s.Id.value) == NatToString(n);
    var c := LeadingDigit(n);
    DerivedChapterIs(s, c);
    var r := DigitsAfterFirst(n);
    DerivedStageNumberIs(s, r);
  }

  lemma LeadingDigit(n: nat) returns (c: nat)
    requires 10 <= n < 1000
    ensures 2 <= |NatToString(n)| <= 3
    ensures c == n / Pow10(|NatToString(n)| - 1) && c >= 1
    ensures ChapterOfIdString(NatToString(n)) == Some(c as int)
  {
    c := LeadingDigitValue(n);
    NatToStringPrefix(n, 1);
    ShortChapterDigits(NatToString(n));
  }

  lemma LeadingDigitValue(n: nat) returns (c: nat)
    requires 10 <= n < 1000
    ensures 2 <= |NatToString(n)| <= 3
    ensures c == n / Pow10(|NatToString(n)| - 1) && c >= 1
  {
    var len := |NatToString(n)|;
    NatToStringLength(n, 1);
    NatToStringLength(n, 3);
    NatToStringLength(n, len - 1);
    DivGe(n, 1, Pow10(len - 1));
    c := n / Pow10(len - 1);
  }

  lemma DigitsAfterFirst(n: nat) returns (r: nat)
    requires 10 <= n < 1000
    ensures 2 <= |NatToString(n)| <= 3
    ensures r == n % Pow10(|NatToString(n)| - 1)
    ensures StageNumberOfIdString(NatToString(n)) == Some(r as int)
  {
    NatToStringLength(n, 1);
    NatToStringLength(n, 3);
    NatToStringSuffix(n, 1);
    ShortStageDigits(NatToString(n));
    r := n % Pow10(|NatToString(n)| - 1);
  }

  /** The display path reads 1001 as chapter "10", stage "1". */
  lemma DerivedFrom1001(s: Stage)
    requires s.Id == Some(1001) && !TruthyStr(s.Chapter) && !TruthyStr(s.StageNumber)
    ensures DerivedChapter(s) == Some("10") && DerivedStageNumber(s) == Some("1")
  {
    Render1001();
    assert IntToString(s.Id.value) == "1001";
    Parse1001Parts();
    ChapterReadAsTen(s);
    StageNumberReadAsOne(s);
  }

  lemma ChapterReadAsTen(s: Stage)
    requires TruthyNum(s.Id) && !TruthyStr(s.Chapter)
    requires ChapterOfIdString(IntToString(s.Id.value)) == Some(10)
    ensures DerivedChapter(s) == Some("10")
  {
    assert IntToString(10) == "10" by { assert NatToString(10) == NatToString(1) + "0"; }
  }

  lemma StageNumberReadAsOne(s: Stage)
    requires TruthyNum(s.Id) && !TruthyStr(s.StageNumber)
    requires StageNumberOfIdString(IntToString(s.Id.value)) == Some(1)
    ensures DerivedStageNumber(s) == Some("1")
  {
    assert IntToString(1) == "1";
  }

  lemma Parse1001Parts()
    ensures ChapterOfIdString("1001") == Some(10)
    ensures StageNumberOfIdString("1001") == Some(1)
  {
    assert "1001"[..2] == "10";
    assert "1001"[2..4] == "01";
    ParseTen();
    ParseZeroOne();
  }

  lemma ParseTen()
    ensures ParseInt("10") == Some(10)
  {
    assert DigitsValue("10") == 10 by { assert "10"[..1] == "1"; }
    ParseIntOfDigits("10");
  }

  lemma ParseZeroOne()
    ensures ParseInt("01") == Some(1)
  {
    assert DigitsValue("01") == 1 by { assert "01"[..1] == "0"; }
    ParseIntOfDigits("01");
  }

  lemma Render1001()
    ensures NatToString(1001) == "1001"
  {
    assert NatToString(1) == "1";
    assert NatToString(10) == "10";
    assert NatToString(100) == "100";
  }

  // ---------------------------------------------------------------------
  // getCategoryDisplayName and generateStageName
  // ---------------------------------------------------------------------

  /** The category codes that have a display label, keyed in lower case. */
  const CategoryLabels: map<string, string> := map[
    "campaign" := "主线",
    "bounty" := "悬赏",
    "commission" := "委托",
    "schooldungeon" := "学园",
    "weekdungeon" := "周常"]

  /** getCategoryDisplayName: a switch on the lower-cased code; an unknown
      code is returned as given. */
  function CategoryDisplayName(category: string): (r: string)
    ensures Lower(category) in CategoryLabels ==> r == CategoryLabels[Lower(category)]
    ensures Lower(category) !in CategoryLabels ==> r == category
  {
    var code := Lower(category);
    if code == "campaign" then "主线"
    else if code == "bounty" then "悬赏"
    else if code == "commission" then "委托"
    else if code == "schooldungeon" then "学园"
    else if code == "weekdungeon" then "周常"
    else category
  }

  /** The label does not depend on the case the code is written in. */
  lemma CategoryDisplayNameCaseInsensitive(a: string, b: string)
    requires Lower(a) == Lower(b) && Lower(a) in CategoryLabels
    ensures CategoryDisplayName(a) == CategoryDisplayName(b)
  {
  }

  /** "Unknown" stands in for a falsy Id. */
  function IdOrUnknown(id: Option<int>): string {
    if TruthyNum(id) then IntToString(id.value) else "Unknown"
  }

  /** The name generateStageName assembles before trimming. With a
      category: its label, then " Stage", "-Level" and " (Terrain)", each
      only when truthy. Without: "关卡 " and the Stage, or failing that the
      Id or "Unknown". */
  function RawStageName(s: Stage): string {
    if TruthyStr(s.Category) then LabelledStageName(CategoryDisplayName(s.Category.value), s)
    else PlainStageName(s)
  }

  function LabelledStageName(shown: string, s: Stage): string {
    var numbered := if TruthyNum(s.Stage) then shown + " " + IntToString(s.Stage.value) else shown;
    var levelled := if TruthyNum(s.Level) then numbered + "-" + IntToString(s.Level.value) else numbered;
    if TruthyStr(s.Terrain) then levelled + " (" + s.Terrain.value + ")" else levelled
  }

  function PlainStageName(s: Stage): string {
    if TruthyNum(s.Stage) then "关卡 " + IntToString(s.Stage.value)
    else "关卡 " + IdOrUnknown(s.Id)
  }

  /** generateStageName: the name is trimmed, and an empty result becomes
      undefined (None). Without a category, and with one of the labelled
      category codes, the name is returned untrimmed and is never
      undefined. */
  method GenerateStageName(s: Stage) returns (r: Option<string>)
    ensures r == (if Trim(RawStageName(s)) == "" then None else Some(Trim(RawStageName(s))))
    ensures !TruthyStr(s.Category) ==> r == Some(RawStageName(s))
    ensures TruthyStr(s.Category) && Lower(s.Category.value) in CategoryLabels ==> r == Some(RawStageName(s))
  {
    var name := BuildStageName(s);
    var trimmed := Trim(name);
    if !TruthyStr(s.Category) {
      PlainStageNameUntrimmed(s);
      assert trimmed == name && name != "";
    } else if Lower(s.Category.value) in CategoryLabels {
      var shown := CategoryDisplayName(s.Category.value);
      LabelEdges(s.Category.value);
      LabelledStageNameUntrimmed(shown, s);
      assert trimmed == name && name != "";
    }
    if trimmed == "" {
      r := None;
    } else {
      r := Some(trimmed);
    }
  }

  /** The part of generateStageName that builds the name with +=. */
  method BuildStageName(s: Stage) returns (name: string)
    ensures name == RawStageName(s)
  {
    name := "";
    if TruthyStr(s.Category) {
      var categoryName := CategoryDisplayName(s.Category.value);
      if TruthyNum(s.Stage) {
        name := categoryName + " " + IntToString(s.Stage.value);
      } else {
        name := categoryName;
      }
      if TruthyNum(s.Level) {
        name := name + "-" + IntToString(s.Level.value);
      }
      if TruthyStr(s.Terrain) {
        name := name + " (" + s.Terrain.value + ")";
      }
    } else {
      if TruthyNum(s.Stage) {
        name := "关卡 " + IntToString(s.Stage.value);
      } else {
        name := "关卡 " + IdOrUnknown(s.Id);
      }
    }
  }

  /** A label without surrounding whitespace keeps the whole name free of
      it: every suffix ends with a digit or ")". */
  lemma LabelledStageNameUntrimmed(shown: string, s: Stage)
    requires shown != "" && !IsJsSpace(shown[0]) && !IsJsSpace(shown[|shown| - 1])
    ensures LabelledStageName(shown, s) != "" && Trim(LabelledStageName(shown, s)) == LabelledStageName(shown, s)
  {
    var name := LabelledStageName(shown, s);
    if TruthyNum(s.Stage) {
      IntToStringEndsWithDigit(s.Stage.value);
    }
    if TruthyNum(s.Level) {
      IntToStringEndsWithDigit(s.Level.value);
    }
    assert name[0] == shown[0];
    TrimNoSpace(name);
  }

  /** The labels begin and end with a character that is not whitespace. */
  lemma LabelEdges(category: string)
    requires Lower(category) in CategoryLabels
    ensures var shown := CategoryDisplayName(category);
            shown != "" && !IsJsSpace(shown[0]) && !IsJsSpace(shown[|shown| - 1])
  {
    var code := Lower(category);
    assert code == "campaign" || code == "bounty" || code == "commission"
        || code == "schooldungeon" || code == "weekdungeon";
  }

  lemma PlainStageNameUntrimmed(s: Stage)
    ensures PlainStageName(s) != "" && Trim(PlainStageName(s)) == PlainStageName(s)
  {
    var name := PlainStageName(s);
    if TruthyNum(s.Stage) {
      IntToStringEndsWithDigit(s.Stage.value);
    } else if TruthyNum(s.Id) {
      IntToStringEndsWithDigit(s.Id.value);
    }
    assert name[0] == '关';
    TrimNoSpace(name);
  }

  /** A stage with only an Id is named after it. */
  lemma StageNamedAfterId(s: Stage, id: int)
    requires s.Id == Some(id) && id != 0 && !TruthyStr(s.Category) && !TruthyNum(s.Stage)
    ensures RawStageName(s) == "关卡 " + IntToString(id)
  {
  }
}
