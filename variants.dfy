/** findStudentVariants: given a name, the student it names together with
    the other versions of the same character, whose names are the base
    name followed by a bracketed suffix ("Aru (New Year)"), and
    escapeRegExp, which makes the base name a literal inside the second
    pattern. Similarities are kept in hundredths: 100, 98 and 95, with a
    floor of 90. */
module Variants {
  import opened Wrappers
  import opened Text
  import opened Students
  import Lists
  import StableSort

  // ---------------------------------------------------------------------
  // escapeRegExp
  // ---------------------------------------------------------------------

  /** The characters escapeRegExp puts a backslash in front of. */
  predicate IsRegExpSpecial(c: char) {
    c in {'.', '*', '+', '?', '^', '$', '{', '}', '(', ')', '|', '[', ']', '\\'}
  }

  /** escapeRegExp(s): every special character preceded by a backslash. */
  function EscapeRegExp(s: string): (r: string)
    ensures |s| <= |r| <= 2 * |s|
  {
    if s == [] then []
    else (if IsRegExpSpecial(s[0]) then ['\\', s[0]] else [s[0]]) + EscapeRegExp(s[1..])
  }

  /** A pattern made of literal characters only: each special character
      appears right after a backslash, and nothing else does. */
  predicate LiteralPattern(p: string)
    decreases |p|
  {
    p == []
    || (|p| >= 2 && p[0] == '\\' && IsRegExpSpecial(p[1]) && LiteralPattern(p[2..]))
    || (!IsRegExpSpecial(p[0]) && LiteralPattern(p[1..]))
  }

  /** The string a literal pattern matches: each escape stands for the
      character after it. */
  function PatternText(p: string): string
    decreases |p|
  {
    if p == [] then []
    else if |p| >= 2 && p[0] == '\\' then [p[1]] + PatternText(p[2..])
    else [p[0]] + PatternText(p[1..])
  }

  /** The escaped string is a pattern of literal characters that matches
      exactly the original string. */
  lemma {:induction false} EscapeRegExpIsLiteral(s: string)
    ensures LiteralPattern(EscapeRegExp(s))
    ensures PatternText(EscapeRegExp(s)) == s
  {
    if s != [] {
      EscapeRegExpIsLiteral(s[1..]);
      var head := if IsRegExpSpecial(s[0]) then ['\\', s[0]] else [s[0]];
      var p := EscapeRegExp(s);
      assert p == head + EscapeRegExp(s[1..]);
      assert p[|head|..] == EscapeRegExp(s[1..]);
    }
  }

  /** A string without special characters is its own escape. */
  lemma {:induction false} EscapeRegExpPlain(s: string)
    requires forall i :: 0 <= i < |s| ==> !IsRegExpSpecial(s[i])
    ensures EscapeRegExp(s) == s
  {
    if s != [] {
      EscapeRegExpPlain(s[1..]);
    }
  }

  // ---------------------------------------------------------------------
  // The two patterns
  // ---------------------------------------------------------------------

  predicate IsOpen(c: char) {
    c == '(' || c == '（'
  }

  predicate IsClose(c: char) {
    c == ')' || c == '）'
  }

  /** The first index in from..last holding an opening bracket. */
  function FirstOpen(s: string, from: nat, last: int): (r: Option<nat>)
    requires last < |s|
    ensures r.Some? ==> from <= r.value <= last && IsOpen(s[r.value])
                        && forall j :: from <= j < r.value ==> !IsOpen(s[j])
    ensures r.None? ==> forall j :: from <= j <= last ==> !IsOpen(s[j])
    decreases last + 1 - from
  {
    if last < from then None
    else if IsOpen(s[from]) then Some(from)
    else FirstOpen(s, from + 1, last)
  }

  /** /^(.+?)[（(](.+?)[）)]$/ on s: the base is everything before the
      first opening bracket at index 1 or later that still leaves a
      non-empty suffix before a closing bracket at the very end. Line
      breaks are assumed absent, so `.` matches every character. */
  function ParseVariantQuery(s: string): Option<(string, string)> {
    if |s| >= 4 && IsClose(s[|s| - 1]) then
      match FirstOpen(s, 1, |s| - 3)
      case Some(k) => Some((s[..k], s[k + 1..|s| - 1]))
      case None => None
    else None
  }

  /** The `^base[（(](.+?)[）)]$` pattern on name: the suffix between the
      bracket after base and the closing bracket at the end. */
  function VariantSuffix(name: string, base: string): Option<string> {
    if |name| >= |base| + 3 && name[..|base|] == base && IsOpen(name[|base|]) && IsClose(name[|name| - 1])
    then Some(name[|base| + 1..|name| - 1])
    else None
  }

  /** What a parsed variant query is made of: a non-empty base without an
      opening bracket after its first character, the bracket, a non-empty
      suffix and the closing bracket. */
  lemma ParseVariantQuerySome(s: string)
    requires ParseVariantQuery(s).Some?
    ensures var (base, suffix) := ParseVariantQuery(s).value;
            && base != [] && suffix != []
            && (forall j :: 1 <= j < |base| ==> !IsOpen(base[j]))
            && IsOpen(s[|base|]) && IsClose(s[|s| - 1])
            && s == base + [s[|base|]] + suffix + [s[|s| - 1]]
  {
    var (base, suffix) := ParseVariantQuery(s).value;
    assert s == s[..|base|] + [s[|base|]] + s[|base| + 1..|s| - 1] + [s[|s| - 1]];
  }

  /** Conversely, every string of that shape is a variant query with that
      base and suffix. */
  lemma ParseVariantQueryOf(base: string, o: char, suffix: string, c: char)
    requires base != [] && suffix != [] && IsOpen(o) && IsClose(c)
    requires forall j :: 1 <= j < |base| ==> !IsOpen(base[j])
    ensures ParseVariantQuery(base + [o] + suffix + [c]) == Some((base, suffix))
  {
    var s := base + [o] + suffix + [c];
    assert forall j :: 1 <= j < |base| ==> s[j] == base[j];
    assert s[|base|] == o;
    assert FirstOpen(s, 1, |s| - 3) == Some(|base|);
    assert s[..|base|] == base;
    assert s[|base| + 1..|s| - 1] == suffix;
  }

  /** A string is a variant query exactly when it ends in a closing
      bracket and has an opening bracket at an index from 1 to |s| - 3. */
  lemma ParseVariantQueryIff(s: string)
    ensures ParseVariantQuery(s).Some? <==>
              |s| >= 4 && IsClose(s[|s| - 1]) && exists k :: 1 <= k <= |s| - 3 && IsOpen(s[k])
  {
    if |s| >= 4 && IsClose(s[|s| - 1]) && exists k :: 1 <= k <= |s| - 3 && IsOpen(s[k]) {
      var k :| 1 <= k <= |s| - 3 && IsOpen(s[k]);
      assert FirstOpen(s, 1, |s| - 3).Some?;
    }
  }

  /** Both directions of the second pattern: the names it accepts are
      exactly base, a bracket, a non-empty suffix and a closing bracket. */
  lemma VariantSuffixShape(name: string, base: string)
    requires VariantSuffix(name, base).Some?
    ensures var suffix := VariantSuffix(name, base).value;
            && suffix != [] && IsOpen(name[|base|]) && IsClose(name[|name| - 1])
            && name == base + [name[|base|]] + suffix + [name[|name| - 1]]
  {
    assert name == name[..|base|] + [name[|base|]] + name[|base| + 1..|name| - 1] + [name[|name| - 1]];
  }

  lemma VariantSuffixOf(base: string, o: char, suffix: string, c: char)
    requires suffix != [] && IsOpen(o) && IsClose(c)
    ensures VariantSuffix(base + [o] + suffix + [c], base) == Some(suffix)
  {
    var name := base + [o] + suffix + [c];
    assert name[..|base|] == base;
    assert name[|base| + 1..|name| - 1] == suffix;
  }

  // ---------------------------------------------------------------------
  // The result entries
  // ---------------------------------------------------------------------

  datatype VariantKind = SearchedVariant | BaseCharacter | ExactMatch | Variant

  /** A returned student with its similarity in hundredths; a variant also
      carries the base name and the bracketed suffix. */
  datatype Match = Match(student: Student, similarity: int, kind: VariantKind,
                         baseName: Option<string>, variantSuffix: Option<string>)

  const Threshold: int := 90

  function Similarity(m: Match): int {
    m.similarity
  }

  predicate AboveThreshold(m: Match) {
    m.similarity >= Threshold
  }

  /** (student.Name || '').toLowerCase().trim(), the key every step of
      the lookup compares. The steps below take the key as a parameter;
      FindVariants supplies this one. */
  function StudentKey(st: Student): string {
    Normalize(if TruthyStr(st.Name) then st.Name.value else "")
  }

  /** A student key does not end in white space. */
  lemma StudentKeyTrimmed(st: Student)
    ensures var k := StudentKey(st);
            k != [] ==> !IsJsSpace(k[|k| - 1])
  {
  }

  /** The first student whose key is target. */
  function FirstWithName(students: seq<Student>, key: Student -> string, target: string): (r: Option<Student>)
    ensures r.None? <==> forall i :: 0 <= i < |students| ==> key(students[i]) != target
    ensures r.Some? ==> exists i :: && 0 <= i < |students| && students[i] == r.value
                                    && key(students[i]) == target
                                    && forall j :: 0 <= j < i ==> key(students[j]) != target
  {
    if students == [] then None
    else if key(students[0]) == target then Some(students[0])
    else
      var r := FirstWithName(students[1..], key, target);
      assert r.Some? ==> exists i :: && 0 <= i < |students| && students[i] == r.value
                                     && key(students[i]) == target
                                     && forall j :: 0 <= j < i ==> key(students[j]) != target
      by {
        if r.Some? {
          var i :| && 0 <= i < |students[1..]| && students[1..][i] == r.value
                   && key(students[1..][i]) == target
                   && forall j :: 0 <= j < i ==> key(students[1..][j]) != target;
          assert students[i + 1] == r.value;
          assert forall j :: 1 <= j < i + 1 ==> key(students[j]) != target by {
            forall j | 1 <= j < i + 1 ensures key(students[j]) != target {
              assert students[j] == students[1..][j - 1];
            }
          }
        }
      }
      r
  }

  /** Every student whose key is target, at similarity 100, in order. */
  function ExactMatches(students: seq<Student>, key: Student -> string, target: string): (r: seq<Match>)
    ensures forall i :: 0 <= i < |r| ==> r[i].similarity == 100 && r[i].kind == ExactMatch
                                         && key(r[i].student) == target
  {
    if students == [] then []
    else
      var last := students[|students| - 1];
      ExactMatches(students[..|students| - 1], key, target)
      + (if key(last) == target then [Match(last, 100, ExactMatch, None, None)] else [])
  }

  /** Some entry already returned carries this Name. */
  predicate Emitted(acc: seq<Match>, name: Option<string>) {
    exists i | 0 <= i < |acc| :: acc[i].student.Name == name
  }

  /** One pass of the variant loop over a student. */
  function ExpandStep(acc: seq<Match>, st: Student, key: Student -> string, base: string): seq<Match> {
    if Emitted(acc, st.Name) then acc
    else match VariantSuffix(key(st), base)
      case Some(suffix) => acc + [Match(st, 95, Variant, Some(base), Some(suffix))]
      case None => acc
  }

  /** The variant loop over the students left to visit. */
  function Expand(acc: seq<Match>, rest: seq<Student>, key: Student -> string, base: string): seq<Match>
    decreases |rest|
  {
    if rest == [] then acc else Expand(ExpandStep(acc, rest[0], key, base), rest[1..], key, base)
  }

  /** The entries of the first two steps and the base name they settle on.
      A variant query returns the student named by the whole query at 100
      and, with includeOriginal, the first student named by the base at
      98; its base is set either way. A plain query returns the first
      exact match at 100 only with includeOriginal, and sets the base to
      the query when there is such a match. */
  function Initial(students: seq<Student>, key: Student -> string, searchName: string, includeOriginal: bool): (seq<Match>, Option<string>) {
    match ParseVariantQuery(searchName)
    case Some((base, _)) =>
      var searched := FirstWithName(students, key, searchName);
      var original := FirstWithName(students, key, Lower(base));
      ( (if searched.Some? then [Match(searched.value, 100, SearchedVariant, None, None)] else [])
        + (if original.Some? && includeOriginal then [Match(original.value, 98, BaseCharacter, None, None)] else []),
        Some(base))
    case None =>
      var exact := FirstWithName(students, key, searchName);
      if exact.Some? then
        ((if includeOriginal then [Match(exact.value, 100, ExactMatch, None, None)] else []), Some(searchName))
      else ([], None)
  }

  /** The entries collected before sorting: the first steps, then the
      variant loop when the base is truthy, then every exact match when
      nothing was collected. */
  function Collected(students: seq<Student>, key: Student -> string, searchName: string, includeOriginal: bool): seq<Match> {
    var (initial, base) := Initial(students, key, searchName, includeOriginal);
    var expanded := if base.Some? && base.value != "" then Expand(initial, students, key, base.value) else initial;
    if expanded == [] then ExactMatches(students, key, searchName) else expanded
  }

  /** What findStudentVariants returns for the students it fetched. */
  function FindVariants(students: seq<Student>, name: string, includeOriginal: bool): seq<Match> {
    if students == [] then []
    else Lists.Filter(StableSort.SortDesc(Collected(students, StudentKey, Normalize(name), includeOriginal), Similarity), AboveThreshold)
  }

  // ---------------------------------------------------------------------
  // findStudentVariants
  // ---------------------------------------------------------------------

  /** The students the lookup works on are the first 1000 of the list. */
  const StudentLimit: int := 1000

  /** findStudentVariants(name, language, includeOriginal) on the fetched
      student list. */
  method FindStudentVariants(fetched: seq<Student>, name: string, includeOriginal: bool) returns (r: seq<Match>)
    ensures r == FindVariants(Lists.Take(fetched, StudentLimit), name, includeOriginal)
  {
    var students := Lists.Take(fetched, StudentLimit);
    if |students| == 0 {
      return [];
    }
    var searchName := Normalize(name);
    var variants, baseCharacterName := FirstSteps(students, StudentKey, searchName, includeOriginal);
    if baseCharacterName.Some? && baseCharacterName.value != "" {
      variants := ExpandLoop(variants, students, StudentKey, baseCharacterName.value);
    }
    if variants == [] {
      variants := ExactLoop(students, StudentKey, searchName);
    }
    var sorted := StableSort.SortDesc(variants, Similarity);
    r := Lists.Filter(sorted, AboveThreshold);
  }

  /** The first two steps: the variant pattern on the query, then the
      lookups by the whole query and by the base name. */
  method FirstSteps(students: seq<Student>, key: Student -> string, searchName: string, includeOriginal: bool)
    returns (variants: seq<Match>, baseCharacterName: Option<string>)
    ensures variants == Initial(students, key, searchName, includeOriginal).0
    ensures baseCharacterName == Initial(students, key, searchName, includeOriginal).1
  {
    variants := [];
    baseCharacterName := None;
    match ParseVariantQuery(searchName)
    case Some((extractedBaseName, _)) =>
      baseCharacterName := Some(extractedBaseName);
      var searched := FindByName(students, key, searchName);
      if searched.Some? {
        variants := variants + [Match(searched.value, 100, SearchedVariant, None, None)];
      }
      var original := FindByName(students, key, Lower(extractedBaseName));
      if original.Some? && includeOriginal {
        variants := variants + [Match(original.value, 98, BaseCharacter, None, None)];
      }
    case None =>
      var exactMatch := FindByName(students, key, searchName);
      if exactMatch.Some? {
        baseCharacterName := Some(searchName);
        if includeOriginal {
          variants := variants + [Match(exactMatch.value, 100, ExactMatch, None, None)];
        }
      }
  }

  /** The loops that stop at the first student whose key is target. */
  method FindByName(students: seq<Student>, key: Student -> string, target: string) returns (r: Option<Student>)
    ensures r == FirstWithName(students, key, target)
  {
    for i := 0 to |students|
      invariant FirstWithName(students[i..], key, target) == FirstWithName(students, key, target)
    {
      assert students[i..][1..] == students[i + 1..];
      if key(students[i]) == target {
        return Some(students[i]);
      }
    }
    return None;
  }

  /** The third step: every student not yet returned whose key is the base
      followed by a bracketed suffix is added at 95. */
  method ExpandLoop(initial: seq<Match>, students: seq<Student>, key: Student -> string, base: string)
    returns (variants: seq<Match>)
    ensures variants == Expand(initial, students, key, base)
  {
    variants := initial;
    for i := 0 to |students|
      invariant Expand(variants, students[i..], key, base) == Expand(initial, students, key, base)
    {
      var student := students[i];
      assert students[i..][1..] == students[i + 1..];
      if !Emitted(variants, student.Name) {
        var suffixMatch := VariantSuffix(key(student), base);
        if suffixMatch.Some? {
          variants := variants + [Match(student, 95, Variant, Some(base), Some(suffixMatch.value))];
        }
      }
    }
  }

  /** The fourth step: every student whose key is the query, at 100. */
  method ExactLoop(students: seq<Student>, key: Student -> string, searchName: string) returns (variants: seq<Match>)
    ensures variants == ExactMatches(students, key, searchName)
  {
    variants := [];
    for i := 0 to |students|
      invariant variants == ExactMatches(students[..i], key, searchName)
    {
      var student := students[i];
      assert students[..i + 1][..i] == students[..i];
      if key(student) == searchName {
        variants := variants + [Match(student, 100, ExactMatch, None, None)];
      }
    }
    assert students[..|students|] == students;
  }

  // ---------------------------------------------------------------------
  // Properties of the result
  // ---------------------------------------------------------------------

  /** Only the similarities 100, 98 and 95 are ever produced. */
  predicate KnownSimilarities(ms: seq<Match>) {
    forall i :: 0 <= i < |ms| ==> ms[i].similarity in {100, 98, 95}
  }

  lemma {:induction false} ExpandKnown(acc: seq<Match>, rest: seq<Student>, key: Student -> string, base: string)
    requires KnownSimilarities(acc)
    ensures KnownSimilarities(Expand(acc, rest, key, base))
    decreases |rest|
  {
    if rest != [] {
      ExpandKnown(ExpandStep(acc, rest[0], key, base), rest[1..], key, base);
    }
  }

  lemma CollectedKnown(students: seq<Student>, key: Student -> string, searchName: string, includeOriginal: bool)
    ensures KnownSimilarities(Collected(students, key, searchName, includeOriginal))
  {
    var (initial, base) := Initial(students, key, searchName, includeOriginal);
    if base.Some? && base.value != "" {
      ExpandKnown(initial, students, key, base.value);
    }
  }

  /** The floor of 0.9 removes nothing: the result is the collected
      entries sorted by non-increasing similarity, ties in collection
      order, with nothing added or lost. */
  lemma ThresholdDropsNothing(students: seq<Student>, name: string, includeOriginal: bool)
    requires students != []
    ensures var c := Collected(students, StudentKey, Normalize(name), includeOriginal);
            && FindVariants(students, name, includeOriginal) == StableSort.SortDesc(c, Similarity)
            && multiset(FindVariants(students, name, includeOriginal)) == multiset(c)
            && StableSort.NonIncreasing(FindVariants(students, name, includeOriginal), Similarity)
  {
    var c := Collected(students, StudentKey, Normalize(name), includeOriginal);
    CollectedKnown(students, StudentKey, Normalize(name), includeOriginal);
    var sorted := StableSort.SortDesc(c, Similarity);
    StableSort.SortDescPermutes(c, Similarity);
    StableSort.SortDescSorted(c, Similarity);
    forall i | 0 <= i < |sorted|
      ensures AboveThreshold(sorted[i])
    {
      assert sorted[i] in multiset(c);
    }
    Lists.FilterAll(sorted, AboveThreshold);
  }

  /** An empty student list gives an empty answer. */
  lemma NoStudentsNoVariants(name: string, includeOriginal: bool)
    ensures FindVariants([], name, includeOriginal) == []
  {
  }

  /** Whether a key is one the lookup can return for the normalised query
      q: q itself, or, for a variant query, its base, or the base of the
      lookup followed by a bracketed suffix. */
  predicate RelatedKey(k: string, q: string) {
    k == q ||
    match ParseVariantQuery(q)
    case Some((base, _)) => k == Lower(base) || VariantSuffix(k, base).Some?
    case None => VariantSuffix(k, q).Some?
  }

  lemma {:induction false} ExpandRelated(acc: seq<Match>, rest: seq<Student>, key: Student -> string, base: string, q: string)
    requires forall i :: 0 <= i < |acc| ==> RelatedKey(key(acc[i].student), q)
    requires forall k :: VariantSuffix(k, base).Some? ==> RelatedKey(k, q)
    ensures forall i :: 0 <= i < |Expand(acc, rest, key, base)| ==> RelatedKey(key(Expand(acc, rest, key, base)[i].student), q)
    decreases |rest|
  {
    if rest != [] {
      ExpandRelated(ExpandStep(acc, rest[0], key, base), rest[1..], key, base, q);
    }
  }

  /** No returned student has a key other than the query, the base, or
      the base with a bracketed suffix. */
  lemma CollectedRelated(students: seq<Student>, key: Student -> string, q: string, includeOriginal: bool)
    ensures var c := Collected(students, key, q, includeOriginal);
            forall i :: 0 <= i < |c| ==> RelatedKey(key(c[i].student), q)
  {
    var (initial, base) := Initial(students, key, q, includeOriginal);
    InitialRelated(students, key, q, includeOriginal);
    if base.Some? && base.value != "" {
      ExpandRelated(initial, students, key, base.value, q);
    }
  }

  lemma InitialRelated(students: seq<Student>, key: Student -> string, q: string, includeOriginal: bool)
    ensures var (initial, base) := Initial(students, key, q, includeOriginal);
            && (forall i :: 0 <= i < |initial| ==> RelatedKey(key(initial[i].student), q))
            && (base.Some? ==> forall k :: VariantSuffix(k, base.value).Some? ==> RelatedKey(k, q))
  {
    match ParseVariantQuery(q)
    case Some((base, _)) =>
      var searched := FirstWithName(students, key, q);
      var original := FirstWithName(students, key, Lower(base));
      if searched.Some? {
        var i :| 0 <= i < |students| && students[i] == searched.value && key(students[i]) == q;
      }
      if original.Some? {
        var i :| 0 <= i < |students| && students[i] == original.value && key(students[i]) == Lower(base);
      }
    case None =>
      var exact := FirstWithName(students, key, q);
      if exact.Some? {
        var i :| 0 <= i < |students| && students[i] == exact.value && key(students[i]) == q;
      }
  }

  /** Every variant entry carries a Name no earlier entry has. */
  predicate VariantNamesFresh(ms: seq<Match>) {
    forall i, j :: 0 <= i < j < |ms| && ms[j].kind == Variant ==> ms[i].student.Name != ms[j].student.Name
  }

  lemma {:induction false} ExpandFresh(acc: seq<Match>, rest: seq<Student>, key: Student -> string, base: string)
    requires VariantNamesFresh(acc)
    ensures VariantNamesFresh(Expand(acc, rest, key, base))
    decreases |rest|
  {
    if rest != [] {
      ExpandFresh(ExpandStep(acc, rest[0], key, base), rest[1..], key, base);
    }
  }

  /** No student is returned as a variant under a Name already returned. */
  lemma CollectedFresh(students: seq<Student>, key: Student -> string, q: string, includeOriginal: bool)
    ensures VariantNamesFresh(Collected(students, key, q, includeOriginal))
  {
    var (initial, base) := Initial(students, key, q, includeOriginal);
    assert forall i :: 0 <= i < |initial| ==> initial[i].kind != Variant;
    if base.Some? && base.value != "" {
      ExpandFresh(initial, students, key, base.value);
    }
  }

  /** A plain query whose students include exact matches but no variants
      of it returns those exact matches, even without includeOriginal. */
  lemma PlainQueryFallsBackToExact(students: seq<Student>, key: Student -> string, q: string)
    requires ParseVariantQuery(q).None? && q != ""
    requires exists i :: 0 <= i < |students| && key(students[i]) == q
    requires forall i :: 0 <= i < |students| ==> VariantSuffix(key(students[i]), q).None?
    ensures Collected(students, key, q, false) == ExactMatches(students, key, q)
  {
    NoVariantsExpand([], students, key, q);
  }

  lemma {:induction false} NoVariantsExpand(acc: seq<Match>, rest: seq<Student>, key: Student -> string, base: string)
    requires forall i :: 0 <= i < |rest| ==> VariantSuffix(key(rest[i]), base).None?
    ensures Expand(acc, rest, key, base) == acc
    decreases |rest|
  {
    if rest != [] {
      assert forall i :: 0 <= i < |rest[1..]| ==> rest[1..][i] == rest[i + 1];
      NoVariantsExpand(acc, rest[1..], key, base);
    }
  }

  /** The base of "aru (new year)" keeps its trailing space. */
  lemma AruBaseKeepsSpace()
    ensures ParseVariantQuery("aru (new year)") == Some(("aru ", "new year"))
  {
    assert "aru (new year)" == "aru " + ['('] + "new year" + [')'];
    ParseVariantQueryOf("aru ", '(', "new year", ')');
  }

  /** With keys that never end in white space, a base that ends in a
      space names no student. */
  lemma SpacedBaseNamesNoOne(students: seq<Student>, key: Student -> string, base: string)
    requires forall st :: key(st) != [] ==> !IsJsSpace(key(st)[|key(st)| - 1])
    requires base != [] && base[|base| - 1] == ' '
    ensures FirstWithName(students, key, Lower(base)) == None
  {
    forall i | 0 <= i < |students|
      ensures key(students[i]) != Lower(base)
    {
      assert Lower(base)[|base| - 1] == ' ';
    }
  }

  /** For any spelling of "Aru (New Year)" no base character is returned:
      the base keeps the space before the bracket and no student key ends
      in one. */
  lemma AruQueryHasNoBaseCharacter(students: seq<Student>, name: string, includeOriginal: bool)
    requires Normalize(name) == "aru (new year)"
    ensures var c := Collected(students, StudentKey, Normalize(name), includeOriginal);
            forall i :: 0 <= i < |c| ==> c[i].kind != BaseCharacter
  {
    AruBaseKeepsSpace();
    forall st ensures StudentKey(st) != [] ==> !IsJsSpace(StudentKey(st)[|StudentKey(st)| - 1]) {
      StudentKeyTrimmed(st);
    }
    SpacedBaseNamesNoOne(students, StudentKey, "aru ");
    AruInitialHasNoBase(students, StudentKey, includeOriginal);
  }

  lemma AruInitialHasNoBase(students: seq<Student>, key: Student -> string, includeOriginal: bool)
    requires FirstWithName(students, key, Lower("aru ")) == None
    ensures var c := Collected(students, key, "aru (new year)", includeOriginal);
            forall i :: 0 <= i < |c| ==> c[i].kind != BaseCharacter
  {
    AruBaseKeepsSpace();
    var (initial, base) := Initial(students, key, "aru (new year)", includeOriginal);
    assert forall i :: 0 <= i < |initial| ==> initial[i].kind != BaseCharacter;
    if base.Some? && base.value != "" {
      ExpandKindNotBase(initial, students, key, base.value);
    }
  }

  lemma {:induction false} ExpandKindNotBase(acc: seq<Match>, rest: seq<Student>, key: Student -> string, base: string)
    requires forall i :: 0 <= i < |acc| ==> acc[i].kind != BaseCharacter
    ensures forall i :: 0 <= i < |Expand(acc, rest, key, base)| ==> Expand(acc, rest, key, base)[i].kind != BaseCharacter
    decreases |rest|
  {
    if rest != [] {
      ExpandKindNotBase(ExpandStep(acc, rest[0], key, base), rest[1..], key, base);
    }
  }

  // ---------------------------------------------------------------------
  // Worked examples. The key is a parameter: with StudentKey these are
  // students whose Name normalises to the strings given.
  // ---------------------------------------------------------------------

  /** A plain query for "aru" finds only the exact match: the second
      pattern wants the bracket right after the base, so names that put a
      space before it ("aru (new year)") are not variants of "aru". */
  lemma SpacedVariantsMissed(key: Student -> string, a: Student, ny: Student, sw: Student, other: Student)
    requires key(a) == "aru" && key(ny) == "aru (new year)" && key(sw) == "aru (swimsuit)" && key(other) == "unrelated"
    ensures Collected([a, ny, sw, other], key, "aru", true) == [Match(a, 100, ExactMatch, None, None)]
  {
    var students := [a, ny, sw, other];
    assert ParseVariantQuery("aru") == None;
    assert FirstWithName(students, key, "aru") == Some(a);
    var m0 := [Match(a, 100, ExactMatch, None, None)];
    assert Initial(students, key, "aru", true) == (m0, Some("aru"));
    NoVariantsExpand(m0, students, key, "aru");
  }

  /** Names written with full-width brackets and no space are variants:
      "阿露" finds itself at 100 and both bracketed versions at 95, in
      list order. */
  lemma FullWidthVariantsFound(key: Student -> string, a: Student, ny: Student, sw: Student, other: Student)
    requires key(a) == "阿露" && key(ny) == "阿露（正月）" && key(sw) == "阿露（泳装）" && key(other) == "无关"
    requires a.Name != ny.Name && a.Name != sw.Name && ny.Name != sw.Name
    ensures Collected([a, ny, sw, other], key, "阿露", true)
         == [Match(a, 100, ExactMatch, None, None),
             Match(ny, 95, Variant, Some("阿露"), Some("正月")),
             Match(sw, 95, Variant, Some("阿露"), Some("泳装"))]
  {
    var students := [a, ny, sw, other];
    assert ParseVariantQuery("阿露") == None;
    assert FirstWithName(students, key, "阿露") == Some(a);
    var m0 := [Match(a, 100, ExactMatch, None, None)];
    assert Initial(students, key, "阿露", true) == (m0, Some("阿露"));
    var m1 := m0 + [Match(ny, 95, Variant, Some("阿露"), Some("正月"))];
    var m2 := m1 + [Match(sw, 95, Variant, Some("阿露"), Some("泳装"))];
    assert ExpandStep(m0, a, key, "阿露") == m0;
    assert ExpandStep(m0, ny, key, "阿露") == m1 by {
      assert "阿露（正月）"[..2] == "阿露";
      assert "阿露（正月）"[3..5] == "正月";
    }
    assert !Emitted(m1, sw.Name);
    assert ExpandStep(m1, sw, key, "阿露") == m2 by {
      assert "阿露（泳装）"[..2] == "阿露";
      assert "阿露（泳装）"[3..5] == "泳装";
    }
    assert ExpandStep(m2, other, key, "阿露") == m2;
    ExpandFour(m0, m0, m1, m2, m2, a, ny, sw, other, key, "阿露");
  }

  /** A variant query finds the student it names at 100 and the siblings
      that share its base, space included, at 95; the base character
      itself is not found. */
  lemma VariantQueryScenario(key: Student -> string, a: Student, ny: Student, sw: Student, other: Student)
    requires key(a) == "aru" && key(ny) == "aru (new year)" && key(sw) == "aru (swimsuit)" && key(other) == "unrelated"
    requires ny.Name != sw.Name
    ensures Collected([a, ny, sw, other], key, "aru (new year)", true)
         == [Match(ny, 100, SearchedVariant, None, None),
             Match(sw, 95, Variant, Some("aru "), Some("swimsuit"))]
  {
    var students := [a, ny, sw, other];
    var m0 := [Match(ny, 100, SearchedVariant, None, None)];
    VariantQueryFirstSteps(key, a, ny, sw, other);
    var m1 := m0 + [Match(sw, 95, Variant, Some("aru "), Some("swimsuit"))];
    assert ExpandStep(m0, a, key, "aru ") == m0;
    assert ExpandStep(m0, ny, key, "aru ") == m0 by {
      assert m0[0].student.Name == ny.Name;
    }
    assert ExpandStep(m0, sw, key, "aru ") == m1 by {
      assert "aru (swimsuit)"[..4] == "aru ";
      assert "aru (swimsuit)"[5..13] == "swimsuit";
    }
    assert ExpandStep(m1, other, key, "aru ") == m1;
    ExpandFour(m0, m0, m0, m1, m1, a, ny, sw, other, key, "aru ");
  }

  lemma VariantQueryFirstSteps(key: Student -> string, a: Student, ny: Student, sw: Student, other: Student)
    requires key(a) == "aru" && key(ny) == "aru (new year)" && key(sw) == "aru (swimsuit)" && key(other) == "unrelated"
    ensures Initial([a, ny, sw, other], key, "aru (new year)", true)
         == ([Match(ny, 100, SearchedVariant, None, None)], Some("aru "))
  {
    var students := [a, ny, sw, other];
    AruBaseKeepsSpace();
    var searched := FirstWithName(students, key, "aru (new year)");
    assert key(a) != "aru (new year)";
    assert students[1..] == [ny, sw, other];
    assert searched == FirstWithName([ny, sw, other], key, "aru (new year)") == Some(ny);
    assert Lower("aru ") == "aru ";
    var original := FirstWithName(students, key, Lower("aru "));
    assert original == None;
    InitialOfVariantQuery(students, key, "aru (new year)", "aru ", "new year", true);
    var init := Initial(students, key, "aru (new year)", true);
    assert init.1 == Some("aru ");
    assert init.0 == [Match(searched.value, 100, SearchedVariant, None, None)] + [];
    assert init.0 == [Match(ny, 100, SearchedVariant, None, None)];
  }

  /** The first steps of a variant query, spelled out. */
  lemma InitialOfVariantQuery(students: seq<Student>, key: Student -> string, q: string, base: string,
                              suffix: string, includeOriginal: bool)
    requires ParseVariantQuery(q) == Some((base, suffix))
    ensures var searched := FirstWithName(students, key, q);
            var original := FirstWithName(students, key, Lower(base));
            Initial(students, key, q, includeOriginal)
            == ((if searched.Some? then [Match(searched.value, 100, SearchedVariant, None, None)] else [])
                + (if original.Some? && includeOriginal then [Match(original.value, 98, BaseCharacter, None, None)] else []),
                Some(base))
  {
  }

  /** The variant loop over four students, one step at a time. */
  lemma ExpandFour(m0: seq<Match>, m1: seq<Match>, m2: seq<Match>, m3: seq<Match>, m4: seq<Match>,
                   s0: Student, s1: Student, s2: Student, s3: Student, key: Student -> string, base: string)
    requires ExpandStep(m0, s0, key, base) == m1 && ExpandStep(m1, s1, key, base) == m2
    requires ExpandStep(m2, s2, key, base) == m3 && ExpandStep(m3, s3, key, base) == m4
    ensures Expand(m0, [s0, s1, s2, s3], key, base) == m4
  {
    assert [s0, s1, s2, s3][1..] == [s1, s2, s3];
    assert [s1, s2, s3][1..] == [s2, s3];
    assert [s2, s3][1..] == [s3];
    assert [s3][1..] == [];
    assert Expand(m3, [s3], key, base) == Expand(m4, [], key, base);
    assert Expand(m2, [s2, s3], key, base) == Expand(m3, [s3], key, base);
    assert Expand(m1, [s1, s2, s3], key, base) == Expand(m2, [s2, s3], key, base);
  }
}
