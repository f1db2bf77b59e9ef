/** The pure derivations behind the job list screen's search box: the
    autocomplete suggestions computed on every keystroke and the filtered job
    list computed when a search is submitted. */
module JobSearch {
  import opened CaseInsensitive
  import opened Dedup

  /** A job as the screen receives it from the jobs endpoint (`_id` is `id`). */
  datatype Job = Job(
    id: string,
    title: string,
    company: string,
    location: string,
    salary: string,
    jobType: string,
    jobDescription: string)

  /** The two search inputs, `'title' | 'location'`. */
  datatype Field = Title | Location

  function FieldOf(job: Job, field: Field): string {
    match field
    case Title => job.title
    case Location => job.location
  }

  /** a is obtained from b by deleting elements, keeping the order. */
  predicate IsSubsequence<T(==)>(a: seq<T>, b: seq<T>)
    decreases |b|
  {
    a == [] ||
    (b != [] && ((a[0] == b[0] && IsSubsequence(a[1..], b[1..])) || IsSubsequence(a, b[1..])))
  }

  lemma {:induction false} SubsequenceReflexive<T>(s: seq<T>)
    ensures IsSubsequence(s, s)
    decreases |s|
  {
    if s != [] {
      SubsequenceReflexive(s[1..]);
    }
  }

  // ---------------------------------------------------------------------
  // Suggestions (handleInputChange)
  // ---------------------------------------------------------------------

  /** `jobs.map((job) => job.title)`, or `job.location` for the location box. */
  function Project(jobs: seq<Job>, field: Field): seq<string> {
    seq(|jobs|, i requires 0 <= i < |jobs| => FieldOf(jobs[i], field))
  }

  /** The values of Project are exactly the field values of the jobs. */
  lemma ProjectMembership(jobs: seq<Job>, field: Field, v: string)
    ensures v in Project(jobs, field) <==> exists job :: job in jobs && FieldOf(job, field) == v
  {
    var p := Project(jobs, field);
    if exists job :: job in jobs && FieldOf(job, field) == v {
      var job :| job in jobs && FieldOf(job, field) == v;
      var i :| 0 <= i < |jobs| && jobs[i] == job;
      assert p[i] == v;
    }
  }

  /** `.filter((value) => value.toLowerCase().includes(text.toLowerCase()))`. */
  function KeepContaining(values: seq<string>, text: string): seq<string> {
    if values == [] then []
    else (if Contains(values[0], text) then [values[0]] else []) + KeepContaining(values[1..], text)
  }

  /** The kept values are the values that contain the fragment. */
  lemma {:induction false} KeepContainingMembership(values: seq<string>, text: string, v: string)
    ensures v in KeepContaining(values, text) <==> v in values && Contains(v, text)
  {
    if values != [] {
      KeepContainingMembership(values[1..], text, v);
      assert values == [values[0]] + values[1..];
    }
  }

  /** Filtering by a value predicate keeps every occurrence of a kept value,
      so it does not reorder first occurrences. */
  lemma {:induction false} KeepContainingFirstOrder(values: seq<string>, text: string, x: string, y: string)
    requires x in KeepContaining(values, text) && y in KeepContaining(values, text)
    ensures x in values && y in values
    ensures FirstIndex(KeepContaining(values, text), x) < FirstIndex(KeepContaining(values, text), y)
            <==> FirstIndex(values, x) < FirstIndex(values, y)
  {
    KeepContainingMembership(values, text, x);
    KeepContainingMembership(values, text, y);
    var kept := KeepContaining(values, text);
    var rest := KeepContaining(values[1..], text);
    var head := values[0];
    if head == x || head == y {
      assert kept == [head] + rest;
    } else {
      KeepContainingMembership(values[1..], text, x);
      KeepContainingMembership(values[1..], text, y);
      KeepContainingFirstOrder(values[1..], text, x, y);
      FirstIndexAfterHead(values, x);
      FirstIndexAfterHead(values, y);
      if Contains(head, text) {
        assert kept == [head] + rest && kept[1..] == rest;
        FirstIndexAfterHead(kept, x);
        FirstIndexAfterHead(kept, y);
      } else {
        assert kept == rest;
      }
    }
  }

  /** With an empty fragment every value is kept. */
  lemma {:induction false} KeepContainingEmpty(values: seq<string>)
    ensures KeepContaining(values, "") == values
  {
    if values != [] {
      KeepContainingEmpty(values[1..]);
      assert values == [values[0]] + values[1..];
    }
  }

  /** The suggestion list for one search box after `text` was typed:
      `[...new Set(jobs.map(field).filter(contains text))]`. */
  function Suggestions(jobs: seq<Job>, field: Field, text: string): seq<string> {
    Distinct(KeepContaining(Project(jobs, field), text))
  }

  /** A value is suggested exactly when it is the field of some loaded job
      and contains the typed text, ignoring case. */
  lemma SuggestionsMembership(jobs: seq<Job>, field: Field, text: string, v: string)
    ensures v in Suggestions(jobs, field, text) <==>
            Contains(v, text) && exists job :: job in jobs && FieldOf(job, field) == v
  {
    KeepContainingMembership(Project(jobs, field), text, v);
    ProjectMembership(jobs, field, v);
  }

  /** Each suggestion appears once, and the suggestions come in the order in
      which their values first appear among the jobs. */
  lemma SuggestionsOrder(jobs: seq<Job>, field: Field, text: string)
    ensures NoDuplicates(Suggestions(jobs, field, text))
    ensures InFirstOccurrenceOrder(Project(jobs, field), Suggestions(jobs, field, text))
  {
    var values := Project(jobs, field);
    var kept := KeepContaining(values, text);
    var r := Suggestions(jobs, field, text);
    forall i, j | 0 <= i < j < |r|
      ensures r[i] in values && r[j] in values
      ensures FirstIndex(values, r[i]) < FirstIndex(values, r[j])
    {
      KeepContainingFirstOrder(values, text, r[i], r[j]);
    }
    forall x | x in r
      ensures x in values
    {
      KeepContainingMembership(values, text, x);
    }
  }

  /** The suggestion list is the only list that holds exactly the matching
      field values, in first-occurrence order among the jobs. */
  lemma SuggestionsCharacterized(jobs: seq<Job>, field: Field, text: string, r: seq<string>)
    ensures r == Suggestions(jobs, field, text) <==>
            (forall v :: v in r <==> Contains(v, text) && v in Project(jobs, field)) &&
            InFirstOccurrenceOrder(Project(jobs, field), r)
  {
    var values := Project(jobs, field);
    var s := Suggestions(jobs, field, text);
    SuggestionsOrder(jobs, field, text);
    forall v
      ensures v in s <==> Contains(v, text) && v in values
    {
      KeepContainingMembership(values, text, v);
    }
    if (forall v :: v in r <==> Contains(v, text) && v in values) && InFirstOccurrenceOrder(values, r) {
      FirstOccurrenceOrderUnique(values, r, s);
    }
  }

  /** Typed texts that differ only in letter case keep the same values. */
  lemma {:induction false} KeepContainingIgnoresTypedCase(values: seq<string>, t: string, u: string)
    requires EqualIgnoringCase(t, u)
    ensures KeepContaining(values, t) == KeepContaining(values, u)
  {
    if values != [] {
      ContainsCaseVariants(values[0], values[0], t, u);
      KeepContainingIgnoresTypedCase(values[1..], t, u);
    }
  }

  /** Typed texts that differ only in letter case give the same suggestions. */
  lemma SuggestionsIgnoreTypedCase(jobs: seq<Job>, field: Field, t: string, u: string)
    requires EqualIgnoringCase(t, u)
    ensures Suggestions(jobs, field, t) == Suggestions(jobs, field, u)
  {
    KeepContainingIgnoresTypedCase(Project(jobs, field), t, u);
  }

  /** An empty fragment suggests every distinct field value. */
  lemma SuggestionsForEmptyText(jobs: seq<Job>, field: Field)
    ensures Suggestions(jobs, field, "") == Distinct(Project(jobs, field))
  {
    KeepContainingEmpty(Project(jobs, field));
  }

  // ---------------------------------------------------------------------
  // Filtering (handleSearch)
  // ---------------------------------------------------------------------

  /** The predicate of `jobs.filter` in handleSearch: both fragments occur,
      ignoring case, in the matching fields. */
  predicate Matches(job: Job, title: string, location: string) {
    Contains(job.title, title) && Contains(job.location, location)
  }

  /** `jobs.filter((job) => matchTitle && matchLocation)`. */
  function FilterJobs(jobs: seq<Job>, title: string, location: string): (r: seq<Job>)
    ensures forall job :: job in r <==> job in jobs && Matches(job, title, location)
  {
    if jobs == [] then []
    else
      var rest := FilterJobs(jobs[1..], title, location);
      assert forall job :: job in jobs <==> job == jobs[0] || job in jobs[1..];
      if Matches(jobs[0], title, location) then [jobs[0]] + rest else rest
  }

  /** The filtered list keeps the jobs in their original order. */
  lemma {:induction false} FilterJobsIsSubsequence(jobs: seq<Job>, title: string, location: string)
    ensures IsSubsequence(FilterJobs(jobs, title, location), jobs)
  {
    if jobs != [] {
      var r := FilterJobs(jobs, title, location);
      FilterJobsIsSubsequence(jobs[1..], title, location);
      if Matches(jobs[0], title, location) {
        assert r[1..] == FilterJobs(jobs[1..], title, location);
      }
    }
  }

  /** A matching job appears as often as in the input, any other not at all. */
  lemma {:induction false} FilterJobsMultiplicity(jobs: seq<Job>, title: string, location: string, job: Job)
    ensures multiset(FilterJobs(jobs, title, location))[job] ==
            if Matches(job, title, location) then multiset(jobs)[job] else 0
  {
    if jobs != [] {
      FilterJobsMultiplicity(jobs[1..], title, location, job);
      assert jobs == [jobs[0]] + jobs[1..];
    }
  }

  /** Two empty fragments keep every job. */
  lemma {:induction false} FilterJobsEmptyQuery(jobs: seq<Job>)
    ensures FilterJobs(jobs, "", "") == jobs
  {
    if jobs != [] {
      FilterJobsEmptyQuery(jobs[1..]);
      assert jobs == [jobs[0]] + jobs[1..];
    }
  }

  /** Searching again with the same fragments changes nothing. */
  lemma {:induction false} FilterJobsIdempotent(jobs: seq<Job>, title: string, location: string)
    ensures FilterJobs(FilterJobs(jobs, title, location), title, location) ==
            FilterJobs(jobs, title, location)
  {
    if jobs != [] {
      FilterJobsIdempotent(jobs[1..], title, location);
      var rest := FilterJobs(jobs[1..], title, location);
      if Matches(jobs[0], title, location) {
        var r := [jobs[0]] + rest;
        assert r[0] == jobs[0] && r[1..] == rest;
      }
    }
  }

  /** Fragments that differ only in letter case select the same jobs. */
  lemma {:induction false} FilterJobsIgnoresCase(jobs: seq<Job>, t1: string, l1: string, t2: string, l2: string)
    requires EqualIgnoringCase(t1, t2) && EqualIgnoringCase(l1, l2)
    ensures FilterJobs(jobs, t1, l1) == FilterJobs(jobs, t2, l2)
  {
    if jobs != [] {
      ContainsCaseVariants(jobs[0].title, jobs[0].title, t1, t2);
      ContainsCaseVariants(jobs[0].location, jobs[0].location, l1, l2);
      FilterJobsIgnoresCase(jobs[1..], t1, l1, t2, l2);
    }
  }

  /** Filtering by the title alone, with an empty location fragment, keeps
      exactly the jobs whose title contains the fragment. */
  lemma TitleOnlyFilter(jobs: seq<Job>, title: string, job: Job)
    ensures job in FilterJobs(jobs, title, "") <==> job in jobs && Contains(job.title, title)
  {
  }
}
