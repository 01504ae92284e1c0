/** smartSearch: relevance scoring of records against a free-text query
    over a list of fields, with the weights 100 (exact), 80 (prefix),
    60 (substring) and a partial-character fallback, a floor of 10 and a
    stable sort by non-increasing score. */
module Search {
  import opened Wrappers
  import opened Text
  import StableSort

  /** A record as the search sees it: field name to the field's text.
      A field that is absent (undefined) is not in the map. */
  type Record = map<string, string>

  const ExactScore: nat := 100
  const PrefixScore: nat := 80
  const SubstringScore: nat := 60
  const MinScore: nat := 10

  datatype Scored<T> = Scored(item: T, score: int)

  /** How many positions of q hold a character that occurs somewhere in v. */
  function MatchedChars(q: string, v: string): (m: nat)
    ensures m <= |q|
  {
    if q == [] then 0
    else MatchedChars(q[..|q| - 1], v) + (if q[|q| - 1] in v then 1 else 0)
  }

  /** The fallback score: with m matched positions out of |q|, the ratio
      m/|q| >= 0.8 is 5m >= 4|q|, and floor(m * (m/|q|)) is m*m / |q|. */
  function PartialScore(q: string, v: string): nat {
    var m := MatchedChars(q, v);
    if 5 * m >= 4 * |q| && |q| > 1 then m * m / |q| else 0
  }

  /** The score one field contributes; q is the normalised query. */
  function FieldScore(value: Option<string>, q: string): nat {
    match value
    case None => 0
    case Some(s) =>
      if s == "" then 0
      else
        var v := Lower(s);
        if v == q then ExactScore
        else if StartsWith(v, q) then PrefixScore
        else if Contains(v, q) then SubstringScore
        else PartialScore(q, v)
  }

  function FieldOf(item: Record, field: string): Option<string> {
    if field in item then Some(item[field]) else None
  }

  /** The total score of a record: its field scores added up. */
  function RecordScore(item: Record, q: string, fields: seq<string>): nat {
    if fields == [] then 0
    else RecordScore(item, q, fields[..|fields| - 1]) + FieldScore(FieldOf(item, fields[|fields| - 1]), q)
  }

  /** The records whose total reaches the floor, in input order. */
  function Kept(items: seq<Record>, q: string, fields: seq<string>): seq<Record> {
    if items == [] then []
    else
      var last := items[|items| - 1];
      Kept(items[..|items| - 1], q, fields) + (if RecordScore(last, q, fields) >= MinScore then [last] else [])
  }

  /** The (record, score) pairs the search collects before sorting. */
  function KeptScored(items: seq<Record>, q: string, fields: seq<string>): seq<Scored<Record>> {
    if items == [] then []
    else
      var last := items[|items| - 1];
      var s := RecordScore(last, q, fields);
      KeptScored(items[..|items| - 1], q, fields) + (if s >= MinScore then [Scored(last, s)] else [])
  }

  /** The ranking of a non-empty query: the kept records, stably sorted by
      non-increasing total score. */
  function Ranked(items: seq<Record>, q: string, fields: seq<string>): seq<Record> {
    StableSort.SortDesc(Kept(items, q, fields), x => RecordScore(x, q, fields))
  }

  /** smartSearch(items, searchTerm, fields). An empty term returns the
      input itself; otherwise the ranking of the normalised term. */
  method SmartSearch(items: seq<Record>, searchTerm: string, fields: seq<string>) returns (r: seq<Record>)
    ensures searchTerm == "" ==> r == items
    ensures searchTerm != "" ==> r == Ranked(items, Normalize(searchTerm), fields)
  {
    if searchTerm == "" {
      return items;
    }
    var q := Normalize(searchTerm);
    var results: seq<Scored<Record>> := [];
    for n := 0 to |items|
      invariant results == KeptScored(items[..n], q, fields)
    {
      var item := items[n];
      var score := ScoreRecord(item, q, fields);
      assert items[..n + 1][..n] == items[..n];
      if score >= MinScore {
        results := results + [Scored(item, score)];
      }
    }
    assert items[..|items|] == items;
    var sorted := StableSort.SortDesc(results, (p: Scored<Record>) => p.score);
    r := StableSort.MapSeq(sorted, (p: Scored<Record>) => p.item);
    KeptScoredProjects(items, q, fields);
    StableSort.MapSortDesc(results, (p: Scored<Record>) => p.score, (p: Scored<Record>) => p.item,
                           x => RecordScore(x, q, fields));
  }

  /** The per-record part of smartSearch: the loop over the fields that
      accumulates `score`. */
  method ScoreRecord(item: Record, q: string, fields: seq<string>) returns (score: nat)
    ensures score == RecordScore(item, q, fields)
  {
    score := 0;
    for k := 0 to |fields|
      invariant score == RecordScore(item, q, fields[..k])
    {
      var field := fields[k];
      assert fields[..k + 1][..k] == fields[..k];
      assert RecordScore(item, q, fields[..k + 1])
          == RecordScore(item, q, fields[..k]) + FieldScore(FieldOf(item, field), q);
      var gained := 0;
      if field in item && item[field] != "" {
        var v := Lower(item[field]);
        if v == q {
          gained := ExactScore;
        } else if StartsWith(v, q) {
          gained := PrefixScore;
        } else if Contains(v, q) {
          gained := SubstringScore;
        } else {
          var matchedChars := CountMatchedChars(q, v);
          var partialScore := matchedChars;
          if 5 * matchedChars >= 4 * |q| && |q| > 1 {
            gained := partialScore * matchedChars / |q|;
          }
        }
      }
      assert gained == FieldScore(FieldOf(item, field), q);
      score := score + gained;
    }
    assert fields[..|fields|] == fields;
  }

  /** The partial-character loop: one count per query position whose
      character occurs in the field's text. */
  method CountMatchedChars(q: string, v: string) returns (matchedChars: nat)
    ensures matchedChars == MatchedChars(q, v)
  {
    matchedChars := 0;
    for i := 0 to |q|
      invariant matchedChars == MatchedChars(q[..i], v)
    {
      assert q[..i + 1][..i] == q[..i];
      if q[i] in v {
        matchedChars := matchedChars + 1;
      }
    }
    assert q[..|q|] == q;
  }

  lemma {:induction false} KeptScoredProjects(items: seq<Record>, q: string, fields: seq<string>)
    ensures StableSort.MapSeq(KeptScored(items, q, fields), (p: Scored<Record>) => p.item) == Kept(items, q, fields)
    ensures forall i :: 0 <= i < |KeptScored(items, q, fields)| ==>
              KeptScored(items, q, fields)[i].score == RecordScore(KeptScored(items, q, fields)[i].item, q, fields)
  {
    if items != [] {
      KeptScoredProjects(items[..|items| - 1], q, fields);
    }
  }

  // ---------------------------------------------------------------------
  // Properties of the ranking
  // ---------------------------------------------------------------------

  /** Every record of the ranking reaches the floor and the ranking is
      ordered by non-increasing score. */
  lemma RankedSortedAboveFloor(items: seq<Record>, q: string, fields: seq<string>)
    ensures forall i, j :: 0 <= i < j < |Ranked(items, q, fields)| ==>
              RecordScore(Ranked(items, q, fields)[i], q, fields) >= RecordScore(Ranked(items, q, fields)[j], q, fields)
    ensures forall i :: 0 <= i < |Ranked(items, q, fields)| ==>
              RecordScore(Ranked(items, q, fields)[i], q, fields) >= MinScore
  {
    var key := x => RecordScore(x, q, fields);
    StableSort.SortDescSorted(Kept(items, q, fields), key);
    StableSort.SortDescPermutes(Kept(items, q, fields), key);
    KeptAboveFloor(items, q, fields);
    var r := Ranked(items, q, fields);
    forall i | 0 <= i < |r|
      ensures RecordScore(r[i], q, fields) >= MinScore
    {
      assert r[i] in multiset(r);
      assert r[i] in multiset(Kept(items, q, fields));
    }
  }

  lemma {:induction false} KeptAboveFloor(items: seq<Record>, q: string, fields: seq<string>)
    ensures forall x :: x in Kept(items, q, fields) ==> RecordScore(x, q, fields) >= MinScore
  {
    if items != [] {
      KeptAboveFloor(items[..|items| - 1], q, fields);
    }
  }

  /** The ranking holds exactly the input records that reach the floor,
      each as often as in the input: nothing is dropped, duplicated or
      invented. */
  lemma {:induction false} RankedIsKeptPermutation(items: seq<Record>, q: string, fields: seq<string>)
    ensures multiset(Ranked(items, q, fields))
         == multiset(Kept(items, q, fields))
    ensures forall x :: x in multiset(Kept(items, q, fields)) ==>
              multiset(Kept(items, q, fields))[x]
              == (if RecordScore(x, q, fields) >= MinScore then multiset(items)[x] else 0)
  {
    StableSort.SortDescPermutes(Kept(items, q, fields), x => RecordScore(x, q, fields));
    KeptCounts(items, q, fields);
  }

  lemma {:induction false} KeptCounts(items: seq<Record>, q: string, fields: seq<string>)
    ensures forall x :: multiset(Kept(items, q, fields))[x]
              == (if RecordScore(x, q, fields) >= MinScore then multiset(items)[x] else 0)
  {
    if items != [] {
      var init := items[..|items| - 1];
      KeptCounts(init, q, fields);
      assert items == init + [items[|items| - 1]];
    }
  }

  /** Ties keep their input order: for every score, the ranked records with
      that score are the kept records with that score, in input order. */
  lemma RankedStable(items: seq<Record>, q: string, fields: seq<string>, v: int)
    ensures StableSort.WithKey(Ranked(items, q, fields), x => RecordScore(x, q, fields), v)
         == StableSort.WithKey(Kept(items, q, fields), x => RecordScore(x, q, fields), v)
  {
    StableSort.SortDescStable(Kept(items, q, fields), x => RecordScore(x, q, fields), v);
  }

  /** A field equal to the normalised query scores exactly 100, whatever
      the case of the field's text. */
  lemma ExactFieldScores100(s: string, q: string)
    requires s != "" && Lower(s) == q
    ensures FieldScore(Some(s), q) == ExactScore
  {
  }

  /** Absent and empty fields contribute nothing. */
  lemma MissingFieldScoresZero(item: Record, field: string, q: string)
    requires field !in item || item[field] == ""
    ensures FieldScore(FieldOf(item, field), q) == 0
  {
  }

  /** The tiers: a prefix that is not the whole text scores 80, text that
      merely contains the query scores 60, and the partial fallback never
      exceeds the query's length (so it is below 60 for queries shorter
      than 60 characters). */
  lemma {:induction false} FieldScoreTiers(s: string, q: string)
    requires s != ""
    ensures Lower(s) != q && StartsWith(Lower(s), q) ==> FieldScore(Some(s), q) == PrefixScore
    ensures !StartsWith(Lower(s), q) && Contains(Lower(s), q) ==> FieldScore(Some(s), q) == SubstringScore
    ensures !Contains(Lower(s), q) ==> FieldScore(Some(s), q) <= |q|
  {
    var v := Lower(s);
    if v == q {
      ContainsSelf(v);
    } else if StartsWith(v, q) {
      StartsWithContains(v, q);
    }
    if !Contains(v, q) {
      assert v != q by { if v == q { ContainsSelf(v); } }
      assert !StartsWith(v, q) by { if StartsWith(v, q) { StartsWithContains(v, q); } }
      var m := MatchedChars(q, v);
      if 5 * m >= 4 * |q| && |q| > 1 {
        MulLe(m, |q|, m);
        DivLe(m * m, m, |q|);
      }
    }
  }

  /** The total score of a record is the sum over its fields, so a record
      searched on the single field that matches exactly scores 100. */
  lemma SingleExactField(item: Record, field: string, q: string)
    requires field in item && item[field] != "" && Lower(item[field]) == q
    ensures RecordScore(item, q, [field]) == ExactScore
  {
    assert [field][..0] == [];
  }

  /** Appending a field adds its score to the total. */
  lemma RecordScoreAppend(item: Record, q: string, fields: seq<string>, field: string)
    ensures RecordScore(item, q, fields + [field]) == RecordScore(item, q, fields) + FieldScore(FieldOf(item, field), q)
  {
    assert (fields + [field])[..|fields|] == fields;
  }
}
