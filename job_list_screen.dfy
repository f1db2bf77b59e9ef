/** The state of the job list screen and its event handlers. Each React state
    hook becomes a field; each handler becomes a method that reassigns the
    fields its setters touch and leaves the others alone. */
module JobListScreen {
  import opened CaseInsensitive
  import opened Dedup
  import opened JobSearch
  import opened SearchHistory

  class JobList {
    var jobs: seq<Job>
    var searchTitle: string
    var searchLocation: string
    var filteredJobs: seq<Job>
    var suggestions: seq<string>
    var locationSuggestions: seq<string>
    var searchHistory: seq<Entry>

    /** The list on display is always drawn from the loaded jobs, in order.
        It is a standalone invariant: every handler keeps it, and no other
        contract relies on it. */
    ghost predicate Valid()
      reads this
    {
      IsSubsequence(filteredJobs, jobs)
    }

    /** Every hook starts empty (the loading flag is not modelled). */
    constructor ()
      ensures Valid()
      ensures jobs == [] && filteredJobs == [] && searchHistory == []
      ensures searchTitle == "" && searchLocation == ""
      ensures suggestions == [] && locationSuggestions == []
    {
      jobs, filteredJobs, searchHistory := [], [], [];
      searchTitle, searchLocation := "", "";
      suggestions, locationSuggestions := [], [];
    }

    /** The jobs request succeeded with `data`: both the job list and the
        displayed list become `data`. */
    method JobsFetched(data: seq<Job>)
      requires Valid()
      modifies this
      ensures Valid()
      ensures jobs == data && filteredJobs == data
      ensures searchTitle == old(searchTitle) && searchLocation == old(searchLocation)
      ensures suggestions == old(suggestions) && locationSuggestions == old(locationSuggestions)
      ensures searchHistory == old(searchHistory)
    {
      jobs := data;
      filteredJobs := data;
      SubsequenceReflexive(data);
    }

    /** The history request succeeded with `data`, taken as it comes (the
        server's list is not cut to the limit). */
    method HistoryFetched(data: seq<Entry>)
      requires Valid()
      modifies this
      ensures Valid()
      ensures searchHistory == data
      ensures jobs == old(jobs) && filteredJobs == old(filteredJobs)
      ensures searchTitle == old(searchTitle) && searchLocation == old(searchLocation)
      ensures suggestions == old(suggestions) && locationSuggestions == old(locationSuggestions)
    {
      searchHistory := data;
    }

    /** `handleInputChange(text, field)`: store the typed text and recompute
        that box's suggestions from the loaded jobs; nothing else changes. */
    method HandleInputChange(text: string, field: Field)
      requires Valid()
      modifies this
      ensures Valid()
      ensures jobs == old(jobs) && filteredJobs == old(filteredJobs)
      ensures searchHistory == old(searchHistory)
      ensures field == Title ==>
                searchTitle == text && suggestions == Suggestions(jobs, Title, text) &&
                searchLocation == old(searchLocation) &&
                locationSuggestions == old(locationSuggestions)
      ensures field == Location ==>
                searchLocation == text && locationSuggestions == Suggestions(jobs, Location, text) &&
                searchTitle == old(searchTitle) && suggestions == old(suggestions)
      // What the new list holds: matching field values of loaded jobs, once each,
      // in the order they first appear among the jobs.
      ensures var shown := if field == Title then suggestions else locationSuggestions;
              NoDuplicates(shown) && InFirstOccurrenceOrder(Project(jobs, field), shown) &&
              forall v :: v in shown <==>
                Contains(v, text) && exists job :: job in jobs && FieldOf(job, field) == v
    {
      var computed := Suggestions(jobs, field, text);
      SuggestionsOrder(jobs, field, text);
      forall v
        ensures v in computed <==>
                Contains(v, text) && exists job :: job in jobs && FieldOf(job, field) == v
      {
        SuggestionsMembership(jobs, field, text, v);
      }
      match field
      case Title =>
        searchTitle := text;
        suggestions := computed;
      case Location =>
        searchLocation := text;
        locationSuggestions := computed;
    }

    /** `handleSuggestionSelect(text, field)`: put the chosen suggestion in
        its box and close that box's suggestion list only. */
    method HandleSuggestionSelect(text: string, field: Field)
      requires Valid()
      modifies this
      ensures Valid()
      ensures jobs == old(jobs) && filteredJobs == old(filteredJobs)
      ensures searchHistory == old(searchHistory)
      ensures field == Title ==>
                searchTitle == text && suggestions == [] &&
                searchLocation == old(searchLocation) &&
                locationSuggestions == old(locationSuggestions)
      ensures field == Location ==>
                searchLocation == text && locationSuggestions == [] &&
                searchTitle == old(searchTitle) && suggestions == old(suggestions)
    {
      match field
      case Title =>
        searchTitle := text;
        suggestions := [];
      case Location =>
        searchLocation := text;
        locationSuggestions := [];
    }

    /** `handleSearch()`: show the jobs matching both fragments and, when a
        fragment is non-empty, remember the query. The request that saves the
        query on the server is not modelled. */
    method HandleSearch()
      requires Valid()
      modifies this
      ensures Valid()
      ensures jobs == old(jobs)
      ensures searchTitle == old(searchTitle) && searchLocation == old(searchLocation)
      ensures suggestions == old(suggestions) && locationSuggestions == old(locationSuggestions)
      ensures filteredJobs == FilterJobs(jobs, searchTitle, searchLocation)
      ensures searchHistory == Record(old(searchHistory), searchTitle, searchLocation)
      // The displayed jobs are the matching ones, in their original order.
      ensures forall job :: job in filteredJobs <==>
                job in jobs && Matches(job, searchTitle, searchLocation)
      // Two empty fragments show every job and leave the history alone.
      ensures searchTitle == "" && searchLocation == "" ==>
                filteredJobs == jobs && searchHistory == old(searchHistory)
      // Otherwise the query heads a history of at most two entries whose
      // tail is a prefix of the old history.
      ensures IsRecorded(searchTitle, searchLocation) ==>
                1 <= |searchHistory| <= Limit &&
                searchHistory[0] == Entry(searchTitle, searchLocation) &&
                searchHistory[1..] == old(searchHistory)[..|searchHistory| - 1]
    {
      var filtered := FilterJobs(jobs, searchTitle, searchLocation);
      FilterJobsIsSubsequence(jobs, searchTitle, searchLocation);
      if searchTitle == "" && searchLocation == "" {
        FilterJobsEmptyQuery(jobs);
      }
      if IsRecorded(searchTitle, searchLocation) {
        searchHistory := Record(searchHistory, searchTitle, searchLocation);
      }
      filteredJobs := filtered;
    }
  }

  /** Three searches with non-empty fragments leave exactly the last two
      queries in the history, most recent first. */
  method ThreeSearches(screen: JobList, q1: Entry, q2: Entry, q3: Entry)
    requires screen.Valid()
    requires IsRecorded(q1.title, q1.location) && IsRecorded(q2.title, q2.location)
    requires IsRecorded(q3.title, q3.location)
    modifies screen
    ensures screen.Valid()
    ensures screen.searchHistory == [q3, q2]
  {
    screen.HandleInputChange(q1.title, Title);
    screen.HandleInputChange(q1.location, Location);
    screen.HandleSearch();
    screen.HandleInputChange(q2.title, Title);
    screen.HandleInputChange(q2.location, Location);
    screen.HandleSearch();
    screen.HandleInputChange(q3.title, Title);
    screen.HandleInputChange(q3.location, Location);
    screen.HandleSearch();
    ThreeSearchesKeepLastTwo(old(screen.searchHistory), q1.title, q1.location,
                             q2.title, q2.location, q3.title, q3.location);
  }
}
