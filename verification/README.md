# Dashboard list derivations, in Dafny

This project models the logic of a single-page project-management dashboard
(pages Projects, Documents, Calendar and Dashboard, the project card and the
page-transition wrapper). All of that logic derives lists from in-memory
catalogs, plus one two-cell state machine:

- **Projects**: a case-insensitive search over title and client, then four
  status tabs (active, pending, completed, on-hold) with their counts and the
  "No projects found" state.
- **Documents**: a search over the name and the optional project name. The
  "Recent" tab is a sorted copy of the search result, newest first, cut to
  five. The "Shared" tab keeps the documents whose `shared` flag is true.
- **Calendar**: the events of the selected day, and the dots drawn in each
  day cell (at most three, plus a grey overflow dot). The day's events are
  sorted in place by their start-time string. Each event shows up to four
  attendee avatars, a "+N" badge and a singular or plural label.
- **Dashboard**: the "Upcoming Deadlines" panel: open projects, earliest
  due date first, at most three, flagged overdue when the due date has passed.
- **Project card**: status colour and label, avatar initials, the "+N" team
  badge and the footer text.
- **Page transition**: `displayLocation` and `transitionStage`, updated by
  the location-change effect and the animation-end handler.

The catalogs are inputs (sequences), not the sample constants. Dates are
integer instants in local milliseconds. A calendar day is the instant divided
by 86 400 000, rounded down. "Now" and the selected date are parameters.
Strings are `seq<char>`. `toLowerCase` is ASCII case folding and
`localeCompare` is code-point lexicographic order.

Modules: `Common` (Option, member references), `Seqs` (`filter`, the stable
`sort` by an integer key, `slice`), `Text` (lower-casing, `includes`,
lexicographic order, one-character `replace`), then one module per source
file: `ProjectCard`, `Projects`, `Documents`, `Calendar`, `Dashboard`,
`PageTransition`.

The JavaScript `sort` is stable. The model writes it once, as a stable
insertion sort `Seqs.SortBy` that is ascending in an integer key. The
Documents comparator `b.updatedAt - a.updatedAt` is `SortBy` with the key
`-updatedAt`. The Dashboard comparator is `SortBy` with the key `dueDate`.
The Calendar sort runs in place on the freshly filtered array. It is a method
on an `array<Event>` (`Calendar.SortByStartTime`). It is proved to leave a
permutation of its input, ascending in `startTime` compared as strings. That
comparison is on text, not clock time: "02:00 PM" sorts before "09:00 AM".
The model keeps that behaviour.

The model works on values, not shared arrays. So the spread copy in
Documents (`[...filteredDocuments]`) and the fresh `filter` result sorted in
Dashboard cannot reorder their source list; this holds by construction
rather than by a lemma.

## Model

| member | source | states |
|---|---|---|
| `Seqs.Filter` | src/pages/Projects.tsx:125-128 | `filter` keeps exactly the elements satisfying the predicate, each passing element as many times as it occurs, and never grows the list |
| `Seqs.FilterIsSubsequence` | src/pages/Projects.tsx:125 | a filter result is an order-preserving subsequence of its input |
| `Seqs.FilterKeepsAll` | src/pages/Projects.tsx:125-128 | when every element passes, the filter returns the input unchanged |
| `Seqs.FilterIdempotent` | src/pages/Projects.tsx:125-128 | filtering twice by the same predicate equals filtering once |
| `Seqs.FilterEmptyIff` | src/pages/Projects.tsx:178 | a filter result is empty iff no element passes |
| `Seqs.InsertSorted` | src/pages/Documents.tsx:159-161 | one insertion step keeps a list sorted by the key |
| `Seqs.Take` | src/pages/Calendar.tsx:160 | `slice(0, k)` is the prefix of length min(k, n) |
| `Seqs.SortBy` | src/pages/Documents.tsx:159-161 | the stable sort returns a permutation of its input (same multiset, same length), non-decreasing in the key |
| `Seqs.SortedPrefixHoldsSmallest` | src/pages/Dashboard.tsx:246-247 | after sort-then-slice, no element left out has a smaller key than an element kept |
| `Seqs.SortedPrefix` | src/pages/Documents.tsx:159-161 | sort-then-`slice(0, k)` yields min(k, n) input elements, none more often than in the input, ascending in the key; no left-out element has a smaller key |
| `Text.Lower` | src/pages/Projects.tsx:126-127 | `toLowerCase` keeps the length and folds each ASCII capital to its small letter, leaving other characters alone |
| `Text.Includes` | src/pages/Projects.tsx:126-127 | `includes` holds iff the query occurs at some position of the text |
| `Text.IncludedInEmpty` | src/pages/Documents.tsx:156 | only the empty query occurs in the empty string |
| `Text.LexTotal` | src/pages/Calendar.tsx:259-264 | any two start-time strings are ordered one way or the other |
| `Text.LexTransitive` | src/pages/Calendar.tsx:259-264 | the string order used by the sort is transitive |
| `Text.ReplaceFirstAt` | src/components/ui/ProjectCard.tsx:52 | `replace` with a one-character pattern changes only the first occurrence |
| `ProjectCard.StatusName` | src/components/ui/ProjectCard.tsx:14 | a status is one of "pending", "active", "completed", "on-hold" |
| `ProjectCard.StatusColor` | src/components/ui/ProjectCard.tsx:28-41 | the grey class is returned iff the status is not pending, active or completed, so "on-hold" and the default branch agree |
| `ProjectCard.StatusColorsDistinct` | src/components/ui/ProjectCard.tsx:28-41 | two different statuses get different colours unless both are on-hold |
| `ProjectCard.StatusLabel` | src/components/ui/ProjectCard.tsx:52 | the badge of "on-hold" reads "on hold"; the other statuses contain no dash, so their badge is the status name |
| `ProjectCard.Split` | src/components/ui/ProjectCard.tsx:89 | `split(" ")` yields at least one piece, none containing a space |
| `ProjectCard.JoinSplit` | src/components/ui/ProjectCard.tsx:89 | joining the pieces with spaces gives the name back |
| `ProjectCard.Initials` | src/components/ui/ProjectCard.tsx:89 | initials contain no space and are never longer than the name |
| `ProjectCard.InitialsAreWordStarts` | src/components/ui/ProjectCard.tsx:89 | the initials are the non-space characters at the start of the name or after a space, in order ("Alex Smith" gives "AS") |
| `ProjectCard.TeamAvatars` | src/components/ui/ProjectCard.tsx:85-92 | every team member gets an avatar, with no cap, showing that member's initials |
| `ProjectCard.TeamOverflow` | src/components/ui/ProjectCard.tsx:93-97 | the "+N" badge exists iff the team has more than three members, and then N = team size - 3 |
| `ProjectCard.FooterLabel` | src/components/ui/ProjectCard.tsx:100-110 | the footer reads "Completed" iff the status is completed, otherwise "In progress" |
| `Projects.FilteredProjects` | src/pages/Projects.tsx:125-128 | a project is kept iff the lower-cased query occurs in its lower-cased title or client, and a kept project appears as often as in the catalog |
| `Projects.FilteredIsSubsequence` | src/pages/Projects.tsx:125 | the search result keeps the catalog's order |
| `Projects.EmptyQueryKeepsAll` | src/pages/Projects.tsx:125-128 | the empty query returns the whole catalog in its original order |
| `Projects.FilterTwiceIsFilterOnce` | src/pages/Projects.tsx:125-128 | searching the search result again with the same query changes nothing |
| `Projects.Bucket` | src/pages/Projects.tsx:130-133 | a status bucket holds exactly the filtered projects with that status, each as often as in the filtered list |
| `Projects.BucketIsSubsequence` | src/pages/Projects.tsx:130-133 | each bucket keeps the filtered order |
| `Projects.BucketsPartition` | src/pages/Projects.tsx:130-133 | every filtered project is in some bucket, no project is in two, and the four sizes sum to the filtered size |
| `Projects.Counts` | src/pages/Projects.tsx:170-174 | each tab count is the length of its list: "All Projects" the filtered list, each status tab its bucket; the four status counts sum to the "All" count |
| `Projects.NoProjectsFound` | src/pages/Projects.tsx:178 | "No projects found" is shown iff no project matches the query |
| `Projects.NoProjectsForEmptyQuery` | src/pages/Projects.tsx:178 | with an empty query the empty state appears iff the catalog is empty |
| `Projects.EmptyStateHint` | src/pages/Projects.tsx:183 | the "Try a different search term" hint appears iff the query is non-empty |
| `Documents.MatchesIff` | src/pages/Documents.tsx:154-157 | a document matches iff the query occurs in its name, or it has a project and the query occurs there; the empty-string check on the project changes nothing; without a project only the name counts |
| `Documents.FilteredDocuments` | src/pages/Documents.tsx:154-157 | a document is kept iff it matches the query, as often as it occurs in the catalog |
| `Documents.FilteredIsSubsequence` | src/pages/Documents.tsx:154 | the search result keeps the catalog's order |
| `Documents.EmptyQueryKeepsAll` | src/pages/Documents.tsx:154-157 | the empty query keeps every document, in order |
| `Documents.RecentDocuments` | src/pages/Documents.tsx:159-161 | "Recent" has min(5, n) entries, drawn from the filtered list with no document more often than there, newest first, and no filtered document left out is newer than one kept |
| `Documents.SharedDocuments` | src/pages/Documents.tsx:163 | "Shared" holds exactly the filtered documents whose flag is true, each as often as in the filtered list; an absent flag excludes |
| `Documents.SharedIsSubsequence` | src/pages/Documents.tsx:163 | "Shared" keeps the filtered order |
| `Documents.FirstName` | src/pages/Documents.tsx:328 | `name.split(" ")[0]` is the longest space-free prefix of the name |
| `Documents.SizeLabel` | src/pages/Documents.tsx:259 | `doc.size \|\| "-"` shows the size when present and non-empty, otherwise "-" |
| `Calendar.SameDayIsWindow` | src/pages/Calendar.tsx:124-126 | two instants are on the same day iff the first lies in the midnight-to-midnight window of the second |
| `Calendar.EventsOn` | src/pages/Calendar.tsx:124-126 | the day's events (`filteredEvents`, and `eventsOnDay` at line 145) are exactly the events on that calendar day, each as often as in the catalog |
| `Calendar.EventsOnIsSubsequence` | src/pages/Calendar.tsx:124-126 | before sorting, the day's events are in catalog order |
| `Calendar.RenderDay` | src/pages/Calendar.tsx:145-175 | a cell has markers iff some event is on that day; it draws min(3, n) dots for the first events' types, and the grey dot appears iff more than three events fall on the day |
| `Calendar.SortByStartTime` | src/pages/Calendar.tsx:259-264 | the in-place sort leaves a permutation of the array, ascending in start time compared as strings |
| `Calendar.InsertAt` | src/pages/Calendar.tsx:259-264 | one insertion step extends the sorted prefix by one element and keeps the array's multiset |
| `Calendar.DaySchedule` | src/pages/Calendar.tsx:259-264 | the listed schedule holds exactly the selected day's events, each as often as in the catalog, ascending in start time |
| `Calendar.NoEventsScheduled` | src/pages/Calendar.tsx:245 | "No events scheduled" is shown iff no event falls on the selected day |
| `Calendar.AttendeeAvatars` | src/pages/Calendar.tsx:299 | avatars are the first min(4, n) attendees |
| `Calendar.AttendeeOverflow` | src/pages/Calendar.tsx:307-311 | the "+N" badge exists iff there are more than four attendees, and avatars plus N equal the attendee count |
| `Calendar.AttendeeLabel` | src/pages/Calendar.tsx:314 | the label is "attendee" iff there is exactly one attendee, otherwise "attendees" |
| `Calendar.EventTypeLabel` | src/pages/Calendar.tsx:280 | the "site-visit" badge reads "site visit"; the other event types contain no dash and are shown unchanged |
| `Dashboard.OpenProjects` | src/pages/Dashboard.tsx:245 | the panel's source list holds exactly the catalog projects that are not completed, each as often as in the catalog |
| `Dashboard.UpcomingProjects` | src/pages/Dashboard.tsx:244-247 | the panel shows min(3, number of open projects) open projects, none more often than among the open ones, ascending in due date; no open project left out is due earlier than a shown one |
| `Dashboard.UpcomingDeadlines` | src/pages/Dashboard.tsx:247-257 | one row per upcoming project, in order, flagged overdue iff its due date is strictly before now |
| `Dashboard.OverdueIsStrict` | src/pages/Dashboard.tsx:257 | a project due exactly now is not flagged, one due a moment earlier is |
| `PageTransition.Transition.constructor` | src/components/transitions/PageTransition.tsx:16-17 | initially the displayed location is the current one and the stage is "animate-fade-in" |
| `PageTransition.Transition.LocationEffect` | src/components/transitions/PageTransition.tsx:19-23 | a new path sets the stage to "animate-fade-out"; the same path changes nothing; the displayed location is untouched; the stage stays one of the two classes |
| `PageTransition.Transition.HandleAnimationEnd` | src/components/transitions/PageTransition.tsx:25-30 | at the end of a fade-out the stage becomes "animate-fade-in" and the displayed location the current one; at the end of a fade-in nothing changes |
| `PageTransition.Transition.Navigate` | src/components/transitions/PageTransition.tsx:19-30 | effect, animation end and the effect's re-run leave the new location displayed, fading in, with no second fade-out |

## Left out

- Date parsing (`new Date("Jul 15, 2023")`, which can also yield an invalid date) and the date-fns helpers (`isSameDay`, `startOfDay`, `isToday`, `format`) are not modelled. Dates are integer instants and a day is a fixed 86 400 000 ms window, so daylight-saving days are not modelled.
- `localeCompare` locale rules and non-ASCII `toLowerCase` are not modelled. The model uses code-point order and ASCII folding.
- Calendar.SortByStartTime: states sortedness and permutation but not stability. The JavaScript sort keeps events with equal start times in their original order; the method does too, but no contract says so.
- Seqs.SortBy: stability is part of its definition (an element goes before the equal keys that follow it), but no lemma states it.
- Dashboard.NotCompleted compares the status variant, not the status string. The two agree because status names are distinct (`ProjectCard.StatusNameInjective`).
- Rendering is not modelled: JSX, class names, icons, progress bars, the recharts chart, the grid/list view toggle and the Calendar's schedule/day tab.
- React's scheduling of effects and re-renders is not modelled. Only the two state transitions of the page-transition wrapper are modelled, as methods.
- Settings, App, Index, Layout, Metrics and Card hold form wiring, routing, chrome and static sample values, with no derivation logic.
- ActivityFeed's type-to-icon switch is presentational and is not modelled. Its initials expression is the same as the project card's, which is modelled once (`ProjectCard.Initials`). The same holds for the avatar fallbacks in Calendar and Documents.
- The sample catalogs are not modelled as constants; every derivation takes the catalog as input.
