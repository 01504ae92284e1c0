/** The student side of the query engine: the school, star-grade and role
    filters of getStudents with their Chinese-to-English tables, and the
    first-match name lookup (searchInData) of getStudentByName. */
module Students {
  import opened Wrappers
  import opened Text
  import Lists

  /** A student record; absent fields are None. */
  datatype Student = Student(
    Name: Option<string>,
    DevName: Option<string>,
    FamilyName: Option<string>,
    PersonalName: Option<string>,
    PathName: Option<string>,
    School: Option<string>,
    TacticRole: Option<string>,
    StarGrade: Option<int>)

  // ---------------------------------------------------------------------
  // The mapping tables
  // ---------------------------------------------------------------------

  /** Chinese school names (and "srt") to the English school code. */
  const SchoolNames: map<string, string> := map[
    "三一" := "Trinity", "三一综合学园" := "Trinity",
    "千年" := "Millennium", "千年科技学院" := "Millennium",
    "格黑娜" := "Gehenna", "格黑娜学园" := "Gehenna",
    "阿拜多斯" := "Abydos", "阿拜多斯高等学校" := "Abydos",
    "山海经" := "Shanhaijing", "山海经高级中学" := "Shanhaijing",
    "百鬼夜行" := "Hyakkiyako", "百鬼夜行联合学院" := "Hyakkiyako",
    "红冬" := "RedWinter", "红冬联邦学园" := "RedWinter",
    "特殊任务部" := "SRT", "srt" := "SRT",
    "阿里乌斯" := "Arius", "阿里乌斯小队" := "Arius",
    "常盘台" := "Tokiwadai", "瓦尔基里" := "Valkyrie", "高地人" := "Highlander",
    "狂猎" := "WildHunt", "其他" := "ETC", "佐久川" := "Sakugawa"
  ]

  /** Chinese role names (and "dps") to the English tactic role. */
  const RoleNames: map<string, string> := map[
    "治疗" := "Healer", "治疗师" := "Healer", "奶妈" := "Healer",
    "坦克" := "Tanker", "肉盾" := "Tanker", "前排" := "Tanker",
    "输出" := "DamageDealer", "伤害" := "DamageDealer", "dps" := "DamageDealer",
    "辅助" := "Supporter", "支援" := "Supporter",
    "载具" := "Vehicle", "机甲" := "Vehicle"
  ]

  /** table[query] || table[query.toLowerCase()]: the English name for a
      query, looked up as typed and then lower-cased. Every value is a
      non-empty string, so || falls through only on a missing key. */
  function EnglishName(table: map<string, string>, query: string): Option<string> {
    if query in table then Some(table[query])
    else if Lower(query) in table then Some(table[Lower(query)])
    else None
  }

  /** Every key of the school table is its own lower-cased form. */
  lemma SchoolKeysLowerCase()
    ensures forall k :: k in SchoolNames ==> Lower(k) == k
  {
    forall k | k in SchoolNames
      ensures Lower(k) == k
    {
      NoUpperLower(k);
    }
  }

  /** Every key of the role table is its own lower-cased form. */
  lemma RoleKeysLowerCase()
    ensures forall k :: k in RoleNames ==> Lower(k) == k
  {
    forall k | k in RoleNames
      ensures Lower(k) == k
    {
      NoUpperLower(k);
    }
  }

  // ---------------------------------------------------------------------
  // The school, star-grade and role filters
  // ---------------------------------------------------------------------

  /** Whether a field passes a school or role filter: a falsy field never
      does; otherwise the lower-cased field must contain the lower-cased
      query or the lower-cased English name the table gives for it. */
  predicate NamedFieldMatches(table: map<string, string>, field: Option<string>, query: string) {
    TruthyStr(field) &&
    var value := Lower(field.value);
    var english := EnglishName(table, query);
    || Contains(value, Lower(query))
    || (english.Some? && Contains(value, Lower(english.value)))
  }

  predicate SchoolMatches(s: Student, school: string) {
    NamedFieldMatches(SchoolNames, s.School, school)
  }

  predicate RoleMatches(s: Student, role: string) {
    NamedFieldMatches(RoleNames, s.TacticRole, role)
  }

  /** A table key finds exactly the fields that contain the key or its
      English name, in any letter case. */
  lemma NamedFieldOfKey(table: map<string, string>, field: Option<string>, key: string)
    requires key in table
    ensures NamedFieldMatches(table, field, key) <==>
              TruthyStr(field)
              && (Contains(Lower(field.value), Lower(key))
                  || Contains(Lower(field.value), Lower(table[key])))
  {
  }

  /** A query that is no key, in either letter case, is plain case-blind
      containment. */
  lemma NamedFieldOfOther(table: map<string, string>, field: Option<string>, query: string)
    requires query !in table && Lower(query) !in table
    ensures NamedFieldMatches(table, field, query) <==>
              TruthyStr(field) && Contains(Lower(field.value), Lower(query))
  {
  }

  /** Asking for 三一 finds a student of Trinity, whatever the letter case
      of the School field. */
  lemma TrinityByChineseName(s: Student)
    requires TruthyStr(s.School) && Lower(s.School.value) == "trinity"
    ensures SchoolMatches(s, "三一")
  {
    assert SchoolNames["三一"] == "Trinity";
    assert Lower("Trinity") == "trinity";
    ContainsSelf("trinity");
  }

  /** Asking for SRT in capitals still reaches the table through its
      lower-cased form. */
  lemma SrtInCapitals()
    ensures EnglishName(SchoolNames, "SRT") == Some("SRT")
  {
    assert Lower("SRT") == "srt";
    assert "SRT" !in SchoolNames;
  }

  /** The school and role filters do not depend on the letter case of the
      query: a key that is looked up as typed is already lower case. */
  lemma SchoolCaseInsensitive(s: Student, school: string)
    ensures SchoolMatches(s, Lower(school)) == SchoolMatches(s, school)
  {
    SchoolKeysLowerCase();
    LowerIdempotent(school);
  }

  lemma RoleCaseInsensitive(s: Student, role: string)
    ensures RoleMatches(s, Lower(role)) == RoleMatches(s, role)
  {
    RoleKeysLowerCase();
    LowerIdempotent(role);
  }

  /** The students left after the school, star-grade and role filters,
      each applied only when its argument is truthy. */
  function FilterStudents(students: seq<Student>, school: Option<string>, starGrade: Option<int>,
                          role: Option<string>): seq<Student>
  {
    var bySchool := if TruthyStr(school) then Lists.Filter(students, (s: Student) => SchoolMatches(s, school.value)) else students;
    var byGrade := if TruthyNum(starGrade) then Lists.Filter(bySchool, (s: Student) => s.StarGrade == starGrade) else bySchool;
    if TruthyStr(role) then Lists.Filter(byGrade, (s: Student) => RoleMatches(s, role.value)) else byGrade
  }

  /** Whether a student passes every filter that is switched on. */
  predicate PassesFilters(s: Student, school: Option<string>, starGrade: Option<int>, role: Option<string>) {
    && (TruthyStr(school) ==> SchoolMatches(s, school.value))
    && (TruthyNum(starGrade) ==> s.StarGrade == starGrade)
    && (TruthyStr(role) ==> RoleMatches(s, role.value))
  }

  /** The filters keep exactly the students that pass all of them, each as
      often as it occurs in the input. */
  lemma FilterStudentsKeeps(students: seq<Student>, school: Option<string>, starGrade: Option<int>, role: Option<string>)
    ensures forall s :: multiset(FilterStudents(students, school, starGrade, role))[s]
              == (if PassesFilters(s, school, starGrade, role) then multiset(students)[s] else 0)
  {
    var bySchool := if TruthyStr(school) then Lists.Filter(students, (s: Student) => SchoolMatches(s, school.value)) else students;
    var byGrade := if TruthyNum(starGrade) then Lists.Filter(bySchool, (s: Student) => s.StarGrade == starGrade) else bySchool;
    if TruthyStr(school) {
      Lists.FilterCounts(students, (s: Student) => SchoolMatches(s, school.value));
    }
    if TruthyNum(starGrade) {
      Lists.FilterCounts(bySchool, (s: Student) => s.StarGrade == starGrade);
    }
    if TruthyStr(role) {
      Lists.FilterCounts(byGrade, (s: Student) => RoleMatches(s, role.value));
    }
  }

  // ---------------------------------------------------------------------
  // searchInData: the first student with a matching name field
  // ---------------------------------------------------------------------

  /** The name fields searchInData checks, in order: Name, DevName,
      FamilyName, PersonalName, PathName, and, when both family and
      personal name are truthy, the two run together and the two with a
      space between. */
  function NameFields(st: Student): seq<Option<string>> {
    var both := TruthyStr(st.FamilyName) && TruthyStr(st.PersonalName);
    [ st.Name, st.DevName, st.FamilyName, st.PersonalName, st.PathName,
      if both then Some(st.FamilyName.value + st.PersonalName.value) else None,
      if both then Some(st.FamilyName.value + " " + st.PersonalName.value) else None ]
  }

  /** A field matches the normalised query q when it is a non-empty string
      whose normalised form equals q or contains it. */
  predicate FieldMatches(field: Option<string>, q: string) {
    TruthyStr(field) && (Normalize(field.value) == q || Contains(Normalize(field.value), q))
  }

  /** Some field of the list matches. */
  predicate AnyFieldMatch(fields: seq<Option<string>>, q: string) {
    exists k | 0 <= k < |fields| :: FieldMatches(fields[k], q)
  }

  /** A present student one of whose name fields matches. */
  predicate StudentMatches(entry: Option<Student>, q: string) {
    entry.Some? && AnyFieldMatch(NameFields(entry.value), q)
  }

  /** Some entry of the list is a matching student. */
  predicate AnyStudentMatch(students: seq<Option<Student>>, q: string) {
    exists i | 0 <= i < |students| :: StudentMatches(students[i], q)
  }

  /** searchInData(data) for the query name. The collection is None when
      it is falsy or not an object; its entries are None where a value is
      falsy. The answer is the first student, in key order, one of whose
      name fields matches, and None when there is none. */
  method SearchInData(data: Option<seq<Option<Student>>>, name: string) returns (r: Option<Student>)
    ensures data.None? ==> r.None?
    ensures r.None? ==> data.None? || !AnyStudentMatch(data.value, Normalize(name))
    ensures r.Some? ==>
              && data.Some?
              && exists i :: && 0 <= i < |data.value|
                             && data.value[i] == r && StudentMatches(data.value[i], Normalize(name))
                             && !AnyStudentMatch(data.value[..i], Normalize(name))
  {
    if data.None? {
      return None;
    }
    r := FirstMatch(data.value, Normalize(name));
  }

  /** The loop over the entries: the first present student one of whose
      name fields matches the normalised query q. */
  method FirstMatch(students: seq<Option<Student>>, q: string) returns (r: Option<Student>)
    ensures r.None? ==> !AnyStudentMatch(students, q)
    ensures r.Some? ==>
              exists i :: && 0 <= i < |students|
                          && students[i] == r && StudentMatches(students[i], q)
                          && !AnyStudentMatch(students[..i], q)
  {
    for i := 0 to |students|
      invariant !AnyStudentMatch(students[..i], q)
    {
      var found := false;
      if students[i].Some? {
        found := AnyFieldMatches(NameFields(students[i].value), q);
      }
      AnyStudentMatchStep(students, i, q, found);
      if found {
        return students[i];
      }
    }
    assert students[..|students|] == students;
    return None;
  }

  lemma AnyStudentMatchStep(students: seq<Option<Student>>, i: nat, q: string, found: bool)
    requires i < |students| && !AnyStudentMatch(students[..i], q)
    requires found == (students[i].Some? && AnyFieldMatch(NameFields(students[i].value), q))
    ensures found == StudentMatches(students[i], q)
    ensures AnyStudentMatch(students[..i + 1], q) == found
  {
    assert students[..i + 1] == students[..i] + [students[i]];
    if found {
      assert students[..i + 1][i] == students[i];
    }
  }

  /** The loop over fieldsToCheck: whether some field of the list matches
      the normalised query. */
  method AnyFieldMatches(fieldsToCheck: seq<Option<string>>, q: string) returns (found: bool)
    ensures found == AnyFieldMatch(fieldsToCheck, q)
  {
    for k := 0 to |fieldsToCheck|
      invariant !AnyFieldMatch(fieldsToCheck[..k], q)
    {
      var field := fieldsToCheck[k];
      var matches := false;
      if field.Some? && field.value != "" {
        var normalizedField := Normalize(field.value);
        matches := normalizedField == q || Contains(normalizedField, q);
      }
      AnyFieldMatchStep(fieldsToCheck, k, q, matches);
      if matches {
        return true;
      }
    }
    assert fieldsToCheck[..|fieldsToCheck|] == fieldsToCheck;
    return false;
  }

  lemma AnyFieldMatchStep(fields: seq<Option<string>>, k: nat, q: string, matches: bool)
    requires k < |fields| && !AnyFieldMatch(fields[..k], q)
    requires matches == FieldMatches(fields[k], q)
    ensures AnyFieldMatch(fields[..k + 1], q) == matches
    ensures matches ==> AnyFieldMatch(fields, q)
  {
    assert fields[..k + 1] == fields[..k] + [fields[k]];
    if matches {
      assert fields[..k + 1][k] == fields[k];
    }
  }

  /** The exact-match test of searchInData adds nothing to the containment
      test. */
  lemma FieldMatchesIsContainment(field: Option<string>, q: string)
    ensures FieldMatches(field, q) <==> TruthyStr(field) && Contains(Normalize(field.value), q)
  {
    if TruthyStr(field) && Normalize(field.value) == q {
      ContainsSelf(q);
    }
  }

  /** A query typed in another letter case or with surrounding spaces
      finds a student under its exact name. */
  lemma FoundByOwnName(st: Student, name: string)
    requires TruthyStr(st.Name) && Normalize(name) == Normalize(st.Name.value)
    ensures StudentMatches(Some(st), Normalize(name))
  {
    assert FieldMatches(NameFields(st)[0], Normalize(name));
  }

  /** A student whose family and personal names together form the query
      is found, whether the query writes them together or apart. */
  lemma FoundByFullName(st: Student)
    requires TruthyStr(st.FamilyName) && TruthyStr(st.PersonalName)
    ensures StudentMatches(Some(st), Normalize(st.FamilyName.value + st.PersonalName.value))
    ensures StudentMatches(Some(st), Normalize(st.FamilyName.value + " " + st.PersonalName.value))
  {
    assert FieldMatches(NameFields(st)[5], Normalize(st.FamilyName.value + st.PersonalName.value));
    assert FieldMatches(NameFields(st)[6], Normalize(st.FamilyName.value + " " + st.PersonalName.value));
  }

  /** An empty (or all-space) query matches every student with a truthy
      name field. */
  lemma EmptyQueryMatchesAnyName(st: Student, name: string)
    requires Normalize(name) == "" && TruthyStr(st.Name)
    ensures StudentMatches(Some(st), Normalize(name))
  {
    assert OccursAt(Normalize(st.Name.value), "", 0);
    assert FieldMatches(NameFields(st)[0], Normalize(name));
  }
}
