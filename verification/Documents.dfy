/** The Documents page: a search over name and project, and the three tabs
    "All Files", "Recent" (newest five) and "Shared". */
module Documents {
  import opened Common
  import Seqs
  import Text
  import ProjectCard

  datatype DocType = Pdf | Image | Doc | Xls | Folder

  /** A document; `updatedAt` is an instant (milliseconds). */
  datatype Document = Document(
    id: string,
    name: string,
    docType: DocType,
    size: Option<string>,
    project: Option<string>,
    updatedAt: int,
    updatedBy: Member,
    shared: Option<bool>)

  /** The search predicate as written: the project is consulted only when
      it is truthy, i.e. present and not the empty string. */
  predicate Matches(d: Document, query: string)
  {
    Text.Includes(Text.Lower(d.name), Text.Lower(query))
    || (d.project.Some? && d.project.value != ""
        && Text.Includes(Text.Lower(d.project.value), Text.Lower(query)))
  }

  /** The truthiness test changes nothing: a document matches iff the query
      occurs in its name or in its project, when it has one; a document
      without a project can match only through its name. */
  lemma MatchesIff(d: Document, query: string)
    ensures Matches(d, query) <==>
              Text.Includes(Text.Lower(d.name), Text.Lower(query))
              || (d.project.Some? && Text.Includes(Text.Lower(d.project.value), Text.Lower(query)))
    ensures d.project.None? ==> (Matches(d, query) <==> Text.Includes(Text.Lower(d.name), Text.Lower(query)))
  {
    if d.project.Some? && d.project.value == "" && Text.Includes(Text.Lower(d.project.value), Text.Lower(query)) {
      Text.IncludedInEmpty(Text.Lower(query));
      Text.IncludesEmpty(Text.Lower(d.name));
    }
  }

  function MatchesQuery(query: string): Document -> bool
  {
    (d: Document) => Matches(d, query)
  }

  /** `filteredDocuments`: the documents matching the query. */
  function FilteredDocuments(all: seq<Document>, query: string): (r: seq<Document>)
    ensures forall d :: d in r <==> d in all && Matches(d, query)
    ensures forall d :: multiset(r)[d] == if Matches(d, query) then multiset(all)[d] else 0
    ensures |r| <= |all|
  {
    Seqs.Filter(all, MatchesQuery(query))
  }

  /** The search keeps the catalog's order. */
  lemma FilteredIsSubsequence(all: seq<Document>, query: string)
    ensures Seqs.Subsequence(FilteredDocuments(all, query), all)
  {
    Seqs.FilterIsSubsequence(all, MatchesQuery(query));
  }

  /** The empty query keeps every document, in order. */
  lemma EmptyQueryKeepsAll(all: seq<Document>)
    ensures FilteredDocuments(all, "") == all
  {
    forall d | d in all ensures MatchesQuery("")(d) {
      Text.IncludesEmpty(Text.Lower(d.name));
    }
    Seqs.FilterKeepsAll(all, MatchesQuery(""));
  }

  /** Sort key for `b.updatedAt - a.updatedAt`: ascending in the negated
      time is descending in the time, with ties in the same order. */
  function NewestFirst(d: Document): int
  {
    -d.updatedAt
  }

  const RecentLimit := 5

  /** `recentDocuments`: a copy of the filtered list sorted newest first,
      cut to five. It has min(5, n) entries, all from the filtered list,
      newest first, and no document left out is newer than one kept. */
  function RecentDocuments(filtered: seq<Document>): (r: seq<Document>)
    ensures |r| == if |filtered| < RecentLimit then |filtered| else RecentLimit
    ensures forall d :: d in r ==> d in filtered
    ensures multiset(r) <= multiset(filtered)
    ensures forall i, j :: 0 <= i < j < |r| ==> r[i].updatedAt >= r[j].updatedAt
    ensures forall x, y :: x in filtered && x !in r && y in r ==> x.updatedAt <= y.updatedAt
  {
    var r := Seqs.SortedPrefix(filtered, NewestFirst, RecentLimit);
    assert forall i, j :: 0 <= i < j < |r| ==> r[i].updatedAt >= r[j].updatedAt by {
      forall i, j | 0 <= i < j < |r| ensures r[i].updatedAt >= r[j].updatedAt {
        assert NewestFirst(r[i]) <= NewestFirst(r[j]);
      }
    }
    assert forall x, y :: x in filtered && x !in r && y in r ==> x.updatedAt <= y.updatedAt by {
      forall x, y | x in filtered && x !in r && y in r ensures x.updatedAt <= y.updatedAt {
        assert NewestFirst(y) <= NewestFirst(x);
      }
    }
    r
  }

  /** `doc.shared` is truthy only when it is present and true. */
  function IsShared(d: Document): bool
  {
    d.shared == Some(true)
  }

  /** `sharedDocuments`: the filtered documents whose shared flag is true;
      an absent flag excludes the document. */
  function SharedDocuments(filtered: seq<Document>): (r: seq<Document>)
    ensures forall d :: d in r <==> d in filtered && d.shared == Some(true)
    ensures forall d :: multiset(r)[d] == if d.shared == Some(true) then multiset(filtered)[d] else 0
    ensures forall d :: d in r ==> d.shared != None
  {
    Seqs.Filter(filtered, IsShared)
  }

  /** The shared view keeps the filtered order. */
  lemma SharedIsSubsequence(filtered: seq<Document>)
    ensures Seqs.Subsequence(SharedDocuments(filtered), filtered)
  {
    Seqs.FilterIsSubsequence(filtered, IsShared);
  }

  /** The first name under an avatar, `name.split(" ")[0]`: the longest
      prefix of the name without a space. */
  function FirstName(name: string): (r: string)
    ensures |r| <= |name| && r == name[..|r|]
    ensures ' ' !in r
    ensures |r| < |name| ==> name[|r|] == ' '
  {
    FirstPiece(name);
    ProjectCard.Split(name)[0]
  }

  lemma {:induction false} FirstPiece(s: string)
    ensures var w := ProjectCard.Split(s)[0];
            |w| <= |s| && w == s[..|w|] && (|w| < |s| ==> s[|w|] == ' ')
  {
    if s != [] && s[0] != ' ' {
      FirstPiece(s[1..]);
    }
  }

  /** The size column, `doc.size || "-"`: an absent or empty size shows "-". */
  function SizeLabel(d: Document): (r: string)
    ensures r == "-" <==> d.size == None || d.size == Some("") || d.size == Some("-")
    ensures d.size.Some? && d.size.value != "" ==> r == d.size.value
  {
    if d.size.Some? && d.size.value != "" then d.size.value else "-"
  }
}
