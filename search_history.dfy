/** The bounded, most-recent-first search history kept by the job list
    screen. A submitted search with at least one non-empty fragment is put in
    front of the history, which is then cut to its first two entries. */
module SearchHistory {

  /** `{ title, location }`, one remembered query. */
  datatype Entry = Entry(title: string, location: string)

  /** `newHistory.slice(0, 2)`: the history keeps at most two entries (the
      comment beside that call mentions five; the call itself keeps two). */
  const Limit: nat := 2

  /** `if (searchTitle || searchLocation)`: a string is truthy when non-empty. */
  predicate IsRecorded(title: string, location: string) {
    title != "" || location != ""
  }

  /** The history after submitting a search with these fragments. */
  function Record(history: seq<Entry>, title: string, location: string): (r: seq<Entry>)
    ensures !IsRecorded(title, location) ==> r == history
    ensures IsRecorded(title, location) ==>
              |r| == (if |history| < Limit then |history| + 1 else Limit) &&
              1 <= |r| <= Limit && r[0] == Entry(title, location) &&
              r[1..] == history[..|r| - 1]
  {
    if IsRecorded(title, location) then
      var extended := [Entry(title, location)] + history;
      extended[..if |extended| < Limit then |extended| else Limit]
    else
      history
  }

  /** A history within the limit stays within the limit. */
  lemma RecordKeepsBound(history: seq<Entry>, title: string, location: string)
    requires |history| <= Limit
    ensures |Record(history, title, location)| <= Limit
  {
  }

  /** Two recorded searches in a row leave exactly those two queries, most
      recent first, whatever the history was before. */
  lemma TwoSearchesDetermineHistory(history: seq<Entry>, t1: string, l1: string, t2: string, l2: string)
    requires IsRecorded(t1, l1) && IsRecorded(t2, l2)
    ensures Record(Record(history, t1, l1), t2, l2) == [Entry(t2, l2), Entry(t1, l1)]
  {
    var h1 := Record(history, t1, l1);
    var h2 := Record(h1, t2, l2);
    assert h1[0] == Entry(t1, l1);
    assert |h2| == 2 && h2[1] == h1[0];
  }

  /** Three recorded searches in a row leave exactly the last two queries,
      most recent first. */
  lemma ThreeSearchesKeepLastTwo(history: seq<Entry>, t1: string, l1: string,
                                 t2: string, l2: string, t3: string, l3: string)
    requires IsRecorded(t1, l1) && IsRecorded(t2, l2) && IsRecorded(t3, l3)
    ensures Record(Record(Record(history, t1, l1), t2, l2), t3, l3) ==
            [Entry(t3, l3), Entry(t2, l2)]
  {
    TwoSearchesDetermineHistory(Record(history, t1, l1), t2, l2, t3, l3);
  }
}
