/**
 * The timetable browser (Frontend/src/components/ViewTimetables.jsx): a
 * search by academic year and semester, and the results grouped into one
 * bucket per year of study.
 */
module ViewTimetables {
  import opened Values
  import opened Seqs
  import opened Storage
  import opened Ui

  /** The object key `grouped[tt.year]` looks up, `String(tt.year)`. */
  function YearKey(tt: Record): string
  {
    ToText(Get(tt, "year"))
  }

  /** The three buckets `groupByYear` starts with. */
  predicate IsBucket(b: string)
  {
    b == "SY" || b == "TY" || b == "Final Year"
  }

  /*
   * The grouping is stated for any way `key` of naming a timetable's bucket;
   * the page names it by `YearKey`.
   */

  /** The test a timetable of bucket `b` passes. */
  function InBucket(key: Record -> string, b: string): Record -> bool
  {
    tt => key(tt) == b
  }

  /** The timetables of bucket `b`, in their original order. */
  function Bucket(key: Record -> string, timetables: seq<Record>, b: string): seq<Record>
  {
    Filter(InBucket(key, b), timetables)
  }

  /** A bucket keeps the order of the timetables and holds exactly those named for it. */
  lemma BucketIsOfYear(key: Record -> string, timetables: seq<Record>, b: string)
    ensures IsSubsequence(Bucket(key, timetables, b), timetables)
    ensures forall tt :: tt in Bucket(key, timetables, b) <==> tt in timetables && key(tt) == b
  {
    FilterIsSubsequence(InBucket(key, b), timetables);
  }

  /** A timetable is kept exactly when it names one of the three buckets. */
  function Known(key: Record -> string): Record -> bool
  {
    tt => IsBucket(key(tt))
  }

  /** A timetable of a known year is in its own bucket and in no other. */
  lemma LandsInOneBucket(key: Record -> string, timetables: seq<Record>, tt: Record, b: string)
    requires tt in timetables && IsBucket(key(tt)) && IsBucket(b)
    ensures tt in Bucket(key, timetables, b) <==> b == key(tt)
  {
    BucketIsOfYear(key, timetables, b);
  }

  /** One timetable adds itself to its own bucket and nothing to the others. */
  lemma BucketSnoc(key: Record -> string, timetables: seq<Record>, i: int, b: string)
    requires 0 <= i < |timetables|
    ensures Bucket(key, timetables[..i + 1], b) == Bucket(key, timetables[..i], b) + if key(timetables[i]) == b then [timetables[i]] else []
  {
    assert timetables[..i + 1] == timetables[..i] + [timetables[i]];
    FilterAppend(InBucket(key, b), timetables[..i], [timetables[i]]);
  }

  /** The sizes of the three buckets together. */
  function Total(key: Record -> string, timetables: seq<Record>): nat
  {
    |Bucket(key, timetables, "SY")| + |Bucket(key, timetables, "TY")| + |Bucket(key, timetables, "Final Year")|
  }

  /** The three buckets together hold exactly the timetables of a known year. */
  lemma {:induction false} BucketsPartitionKnown(key: Record -> string, timetables: seq<Record>)
    ensures Total(key, timetables) == |Filter(Known(key), timetables)|
  {
    if timetables != [] {
      BucketsPartitionKnown(key, timetables[1..]);
      TotalCountsHead(key, timetables);
      FilterCountsHead(Known(key), timetables);
    }
  }

  /** The first timetable adds one to the total exactly when its year is known. */
  lemma TotalCountsHead(key: Record -> string, timetables: seq<Record>)
    requires timetables != []
    ensures Total(key, timetables) == (if IsBucket(key(timetables[0])) then 1 else 0) + Total(key, timetables[1..])
  {
    FilterCountsHead(InBucket(key, "SY"), timetables);
    FilterCountsHead(InBucket(key, "TY"), timetables);
    FilterCountsHead(InBucket(key, "Final Year"), timetables);
  }

  /** The buckets hold at most every timetable, and all of them exactly when every year is known. */
  lemma BucketSizes(key: Record -> string, timetables: seq<Record>)
    ensures Total(key, timetables) <= |timetables|
    ensures Total(key, timetables) == |timetables| <==> forall i :: 0 <= i < |timetables| ==> IsBucket(key(timetables[i]))
  {
    BucketsPartitionKnown(key, timetables);
    if forall i :: 0 <= i < |timetables| ==> IsBucket(key(timetables[i])) {
      FilterKeepsAll(Known(key), timetables);
    } else {
      var i :| 0 <= i < |timetables| && !IsBucket(key(timetables[i]));
      FilterShorter(Known(key), timetables, i);
    }
  }

  /** `grouped` holds the three buckets of `timetables`, and nothing else. */
  ghost predicate GroupedAs(grouped: map<string, seq<Record>>, key: Record -> string, timetables: seq<Record>)
  {
    && (forall b :: b in grouped <==> IsBucket(b))
    && (forall b :: b in grouped ==> grouped[b] == Bucket(key, timetables, b))
  }

  /** Pushing the next timetable onto its bucket, when it has one, groups one timetable more. */
  lemma PushKeepsGrouped(grouped: map<string, seq<Record>>, key: Record -> string, timetables: seq<Record>, i: int)
    requires 0 <= i < |timetables| && GroupedAs(grouped, key, timetables[..i])
    ensures GroupedAs(Push(grouped, key(timetables[i]), timetables[i]), key, timetables[..i + 1])
  {
    var tt := timetables[i];
    var next := Push(grouped, key(tt), tt);
    forall b | b in next
      ensures next[b] == Bucket(key, timetables[..i + 1], b)
    {
      BucketSnoc(key, timetables, i, b);
    }
  }

  /** `grouped[k]?.push(tt)`: the item goes at the end of bucket `k`, when there is one. */
  function Push(grouped: map<string, seq<Record>>, k: string, tt: Record): (r: map<string, seq<Record>>)
    ensures r.Keys == grouped.Keys
    ensures forall b :: b in grouped ==> r[b] == grouped[b] + if b == k then [tt] else []
  {
    if k in grouped then grouped[k := grouped[k] + [tt]] else grouped
  }

  /** The `forEach` of `groupByYear`: each timetable is pushed onto its bucket when there is one. */
  method GroupBy(key: Record -> string, timetables: seq<Record>) returns (grouped: map<string, seq<Record>>)
    ensures forall b :: b in grouped <==> IsBucket(b)
    ensures forall b :: b in grouped ==> grouped[b] == Bucket(key, timetables, b)
  {
    grouped := map["SY" := [], "TY" := [], "Final Year" := []];
    var i := 0;
    while i < |timetables|
      invariant 0 <= i <= |timetables|
      invariant GroupedAs(grouped, key, timetables[..i])
    {
      var tt := timetables[i];
      PushKeepsGrouped(grouped, key, timetables, i);
      ghost var before := grouped;
      if key(tt) in grouped {
        grouped := grouped[key(tt) := grouped[key(tt)] + [tt]];
      }
      assert grouped == Push(before, key(tt), tt);
      i := i + 1;
    }
    assert timetables[..i] == timetables;
  }

  class ViewTimetablesView {
    const store: LocalStore
    var academicYear: string
    var semester: string
    var timetables: seq<Record>
    var showResults: bool

    constructor (store: LocalStore)
      ensures this.store == store && academicYear == "" && semester == "odd" && timetables == [] && !showResults
    {
      this.store := store;
      academicYear := "";
      semester := "odd";
      timetables := [];
      showResults := false;
    }

    /** The academic year input's `onChange`: only the academic year changes. */
    method SetAcademicYear(v: string)
      modifies this`academicYear
      ensures academicYear == v
    {
      academicYear := v;
    }

    /** The semester select's `onChange`: only the semester changes. */
    method SetSemester(v: string)
      modifies this`semester
      ensures semester == v
    {
      semester := v;
    }

    /** `handleSearch`: nothing happens without an academic year; otherwise the matching timetables are shown. */
    method HandleSearch()
      modifies this`timetables, this`showResults
      ensures academicYear == "" ==> timetables == old(timetables) && showResults == old(showResults)
      ensures academicYear != "" ==> timetables == store.TimetablesOf(academicYear, semester) && showResults
    {
      if academicYear == "" {
        return;
      }
      timetables := store.TimetablesOf(academicYear, semester);
      showResults := true;
    }

    /** `groupByYear`: exactly the three buckets, each the shown timetables of that year in order; other years are dropped. */
    method GroupByYear() returns (grouped: map<string, seq<Record>>)
      ensures forall b :: b in grouped <==> IsBucket(b)
      ensures forall b :: b in grouped ==> grouped[b] == Bucket(YearKey, timetables, b)
    {
      grouped := GroupBy(YearKey, timetables);
    }
  }
}
