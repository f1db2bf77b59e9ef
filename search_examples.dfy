/** The worked examples of the job search on three sample jobs. */
module SearchExamples {
  import opened CaseInsensitive
  import opened Dedup
  import opened JobSearch

  function Sample(title: string, location: string): Job {
    Job("", title, "", location, "", "", "")
  }

  function SampleJobs(): seq<Job> {
    [Sample("Backend Engineer", "Hanoi"), Sample("Frontend Engineer", "Hanoi"),
     Sample("Backend Lead", "HCMC")]
  }

  lemma OnlyFirstSampleMatches()
    ensures Matches(SampleJobs()[0], "Backend", "Hanoi")
    ensures !Matches(SampleJobs()[1], "Backend", "Hanoi")
    ensures !Matches(SampleJobs()[2], "Backend", "Hanoi")
  {
    assert Lower("Backend") == "backend";
    assert Lower("Backend Engineer") == "backend engineer";
    assert OccursAt(Lower("Backend Engineer"), Lower("Backend"), 0);
    ContainsIff("Backend Engineer", "Backend");
    ContainsSelf("Hanoi");
    assert Lower("Frontend Engineer") == "frontend engineer";
    ContainsNeedsEveryChar("Frontend Engineer", "Backend", 0);
  }

  /** Searching for "Backend" in "Hanoi" finds only the backend engineer. */
  lemma FilterExample()
    ensures FilterJobs(SampleJobs(), "Backend", "Hanoi") == [Sample("Backend Engineer", "Hanoi")]
  {
    var jobs := SampleJobs();
    OnlyFirstSampleMatches();
    assert FilterJobs(jobs[2..], "Backend", "Hanoi") == [] by {
      assert jobs[2..][1..] == [];
    }
    assert FilterJobs(jobs[1..], "Backend", "Hanoi") == [] by {
      assert jobs[1..][1..] == jobs[2..];
    }
  }

  lemma BackendEngineerMatches()
    ensures Contains("Backend Engineer", "eng")
  {
    assert Lower("eng") == "eng";
    assert Lower("Backend Engineer") == "backend engineer";
    assert OccursAt(Lower("Backend Engineer"), Lower("eng"), 8);
    ContainsIff("Backend Engineer", "eng");
  }

  lemma FrontendEngineerMatches()
    ensures Contains("Frontend Engineer", "eng")
  {
    assert Lower("eng") == "eng";
    assert Lower("Frontend Engineer") == "frontend engineer";
    assert OccursAt(Lower("Frontend Engineer"), Lower("eng"), 9);
    ContainsIff("Frontend Engineer", "eng");
  }

  lemma BackendLeadDoesNotMatch()
    ensures !Contains("Backend Lead", "eng")
  {
    assert Lower("eng") == "eng";
    assert Lower("Backend Lead") == "backend lead";
    ContainsNeedsEveryChar("Backend Lead", "eng", 2);
  }

  lemma EngineerTitlesKept()
    ensures KeepContaining(["Backend Engineer", "Frontend Engineer", "Backend Lead"], "eng") ==
            ["Backend Engineer", "Frontend Engineer"]
  {
    var titles := ["Backend Engineer", "Frontend Engineer", "Backend Lead"];
    BackendEngineerMatches();
    FrontendEngineerMatches();
    BackendLeadDoesNotMatch();
    assert KeepContaining(titles[2..], "eng") == [] by {
      assert titles[2..][1..] == [];
    }
    assert titles[1..][1..] == titles[2..];
  }

  /** Typing "eng" in the title box suggests the two engineer titles. */
  lemma SuggestionsExample()
    ensures Suggestions(SampleJobs(), Title, "eng") == ["Backend Engineer", "Frontend Engineer"]
  {
    var kept := ["Backend Engineer", "Frontend Engineer"];
    assert Project(SampleJobs(), Title) == ["Backend Engineer", "Frontend Engineer", "Backend Lead"];
    EngineerTitlesKept();
    DistinctOfNoDuplicates(kept);
  }

  /** Typing "ENG" suggests the same two titles as typing "eng". */
  lemma UpperCaseSuggestionsExample()
    ensures Suggestions(SampleJobs(), Title, "ENG") == ["Backend Engineer", "Frontend Engineer"]
  {
    assert EqualIgnoringCase("ENG", "eng");
    SuggestionsIgnoreTypedCase(SampleJobs(), Title, "ENG", "eng");
    SuggestionsExample();
  }
}
