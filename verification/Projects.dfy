/** The Projects page: the search box filters the catalog by title and
    client, and the tabs show the filtered list split by status. */
module Projects {
  import opened ProjectCard
  import Seqs
  import Text

  /** The search predicate: the lower-cased query occurs in the
      lower-cased title or in the lower-cased client. */
  predicate Matches(p: Project, query: string)
  {
    Text.Includes(Text.Lower(p.title), Text.Lower(query))
    || Text.Includes(Text.Lower(p.client), Text.Lower(query))
  }

  function MatchesQuery(query: string): Project -> bool
  {
    (p: Project) => Matches(p, query)
  }

  /** `filteredProjects`: a project is kept iff it matches the query. */
  function FilteredProjects(all: seq<Project>, query: string): (r: seq<Project>)
    ensures forall p :: p in r <==> p in all && Matches(p, query)
    ensures forall p :: multiset(r)[p] == if Matches(p, query) then multiset(all)[p] else 0
    ensures |r| <= |all|
  {
    Seqs.Filter(all, MatchesQuery(query))
  }

  /** The filtered list keeps the catalog's order. */
  lemma FilteredIsSubsequence(all: seq<Project>, query: string)
    ensures Seqs.Subsequence(FilteredProjects(all, query), all)
  {
    Seqs.FilterIsSubsequence(all, MatchesQuery(query));
  }

  /** The empty query keeps every project, in the original order. */
  lemma EmptyQueryKeepsAll(all: seq<Project>)
    ensures FilteredProjects(all, "") == all
  {
    forall p | p in all ensures MatchesQuery("")(p) {
      Text.IncludesEmpty(Text.Lower(p.title));
    }
    Seqs.FilterKeepsAll(all, MatchesQuery(""));
  }

  /** Searching the search result again with the same query changes nothing. */
  lemma FilterTwiceIsFilterOnce(all: seq<Project>, query: string)
    ensures FilteredProjects(FilteredProjects(all, query), query) == FilteredProjects(all, query)
  {
    Seqs.FilterIdempotent(all, MatchesQuery(query));
  }

  function HasStatus(st: Status): Project -> bool
  {
    (p: Project) => p.status == st
  }

  /** `filteredProjects.filter(p => p.status === st)`. */
  function Bucket(filtered: seq<Project>, st: Status): (r: seq<Project>)
    ensures forall p :: p in r <==> p in filtered && p.status == st
    ensures forall p :: multiset(r)[p] == if p.status == st then multiset(filtered)[p] else 0
  {
    Seqs.Filter(filtered, HasStatus(st))
  }

  /** Each bucket keeps the filtered order. */
  lemma BucketIsSubsequence(filtered: seq<Project>, st: Status)
    ensures Seqs.Subsequence(Bucket(filtered, st), filtered)
  {
    Seqs.FilterIsSubsequence(filtered, HasStatus(st));
  }

  lemma BucketUnfold(filtered: seq<Project>, st: Status)
    requires filtered != []
    ensures Bucket(filtered, st)
            == (if filtered[0].status == st then [filtered[0]] else []) + Bucket(filtered[1..], st)
  {
    assert filtered == [filtered[0]] + filtered[1..];
  }

  /** The four buckets split the filtered list: no project is in two of
      them, every filtered project is in one, and the bucket sizes add up
      to the size of the filtered list. */
  lemma {:induction false} BucketsPartition(filtered: seq<Project>)
    ensures forall p :: p in filtered ==>
              p in Bucket(filtered, Active) || p in Bucket(filtered, Pending)
              || p in Bucket(filtered, Completed) || p in Bucket(filtered, OnHold)
    ensures forall p, s1, s2 :: s1 != s2 && p in Bucket(filtered, s1) ==> p !in Bucket(filtered, s2)
    ensures |Bucket(filtered, Active)| + |Bucket(filtered, Pending)|
            + |Bucket(filtered, Completed)| + |Bucket(filtered, OnHold)| == |filtered|
  {
    if filtered != [] {
      var rest := filtered[1..];
      BucketsPartition(rest);
      BucketUnfold(filtered, Active);
      BucketUnfold(filtered, Pending);
      BucketUnfold(filtered, Completed);
      BucketUnfold(filtered, OnHold);
    }
  }

  /** The counts shown on the five tabs. */
  datatype TabCounts = TabCounts(all: nat, active: nat, pending: nat, completed: nat, onHold: nat)

  /** Each tab shows its list's length; the four status counts add up to
      the "All Projects" count. */
  function Counts(all: seq<Project>, query: string): (c: TabCounts)
    ensures c.all == |FilteredProjects(all, query)|
    ensures c.active == |Bucket(FilteredProjects(all, query), Active)|
    ensures c.pending == |Bucket(FilteredProjects(all, query), Pending)|
    ensures c.completed == |Bucket(FilteredProjects(all, query), Completed)|
    ensures c.onHold == |Bucket(FilteredProjects(all, query), OnHold)|
    ensures c.active + c.pending + c.completed + c.onHold == c.all
    ensures c.all <= |all|
  {
    var filtered := FilteredProjects(all, query);
    BucketsPartition(filtered);
    TabCounts(|filtered|, |Bucket(filtered, Active)|, |Bucket(filtered, Pending)|,
              |Bucket(filtered, Completed)|, |Bucket(filtered, OnHold)|)
  }

  /** "No projects found" is shown iff no project matches the query. */
  function NoProjectsFound(all: seq<Project>, query: string): (r: bool)
    ensures r <==> forall p :: p in all ==> !Matches(p, query)
  {
    Seqs.FilterEmptyIff(all, MatchesQuery(query));
    |FilteredProjects(all, query)| == 0
  }

  /** With the empty query the empty state appears only for an empty catalog. */
  lemma NoProjectsForEmptyQuery(all: seq<Project>)
    ensures NoProjectsFound(all, "") <==> all == []
  {
    EmptyQueryKeepsAll(all);
  }

  /** The hint under "No projects found": a non-empty query is truthy. */
  function EmptyStateHint(query: string): (r: string)
    ensures query != "" <==> r == "Try a different search term or clear your filters."
    ensures query == "" <==> r == "Get started by creating your first project."
  {
    if query != "" then "Try a different search term or clear your filters."
    else "Get started by creating your first project."
  }
}
