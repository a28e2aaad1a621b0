/** The Calendar page: the events of the selected day, the event dots drawn
    in each day cell, the in-place sort of the day's events by start time,
    and the attendee row of each event. */
module Calendar {
  import opened Common
  import Seqs
  import Text

  datatype EventType = Meeting | SiteVisit | Deadline | Appointment

  /** An event; `date` is an instant in local milliseconds. */
  datatype Event = Event(
    id: string,
    title: string,
    date: int,
    startTime: string,
    endTime: string,
    location: Option<string>,
    eventType: EventType,
    project: Option<string>,
    attendees: seq<Member>)

  const MsPerDay := 86_400_000

  /** The calendar day an instant falls on (floor division). */
  function Day(t: int): int
  {
    t / MsPerDay
  }

  /** `isSameDay`: both instants fall on the same calendar day. */
  predicate SameDay(a: int, b: int)
  {
    Day(a) == Day(b)
  }

  /** Same day means lying in the same midnight-to-midnight window, however
      close two instants on either side of a midnight are. */
  lemma SameDayIsWindow(a: int, b: int)
    ensures SameDay(a, b) <==> Day(b) * MsPerDay <= a < Day(b) * MsPerDay + MsPerDay
  {
    var d := Day(b);
    assert a == Day(a) * MsPerDay + a % MsPerDay && 0 <= a % MsPerDay < MsPerDay;
    if Day(a) < d {
      assert Day(a) * MsPerDay + MsPerDay <= d * MsPerDay;
    } else if Day(a) > d {
      assert d * MsPerDay + MsPerDay <= Day(a) * MsPerDay;
    }
  }

  function OnDay(instant: int): Event -> bool
  {
    (e: Event) => SameDay(e.date, instant)
  }

  /** `events.filter(event => isSameDay(event.date, day))`, where `instant`
      is any moment of the wanted day: used both for `filteredEvents` (the
      selected date) and for each day cell. */
  function EventsOn(events: seq<Event>, instant: int): (r: seq<Event>)
    ensures forall e :: e in r <==> e in events && SameDay(e.date, instant)
    ensures forall e :: multiset(r)[e] == if SameDay(e.date, instant) then multiset(events)[e] else 0
    ensures |r| <= |events|
  {
    Seqs.Filter(events, OnDay(instant))
  }

  /** Before sorting, the day's events are in catalog order. */
  lemma EventsOnIsSubsequence(events: seq<Event>, instant: int)
    ensures Seqs.Subsequence(EventsOn(events, instant), events)
  {
    Seqs.FilterIsSubsequence(events, OnDay(instant));
  }

  /** What a day cell draws below its number. */
  datatype DayCell = DayCell(hasEvents: bool, dots: seq<EventType>, overflowDot: bool)

  const MaxDots := 3

  /** `renderDay`: one coloured dot for each of the first three events of
      the day, and a grey dot iff more than three events fall on it. */
  function RenderDay(events: seq<Event>, instant: int): (c: DayCell)
    ensures c.hasEvents <==> exists e :: e in events && SameDay(e.date, instant)
    ensures |c.dots| <= MaxDots
    ensures |c.dots| == if |EventsOn(events, instant)| < MaxDots then |EventsOn(events, instant)| else MaxDots
    ensures forall k :: 0 <= k < |c.dots| ==> c.dots[k] == EventsOn(events, instant)[k].eventType
    ensures c.overflowDot <==> |EventsOn(events, instant)| > MaxDots
    ensures c.overflowDot ==> c.hasEvents
  {
    var onDay := EventsOn(events, instant);
    Seqs.FilterEmptyIff(events, OnDay(instant));
    var shown := Seqs.Take(onDay, MaxDots);
    DayCell(|onDay| > 0, seq(|shown|, k requires 0 <= k < |shown| => shown[k].eventType), |onDay| > MaxDots)
  }

  /** The order of `a.startTime.localeCompare(b.startTime)`. */
  predicate StartsNoLater(x: Event, y: Event)
  {
    Text.LexLessEq(x.startTime, y.startTime)
  }

  /** Ascending in start time as strings (so "02:00 PM" precedes
      "09:00 AM"): the comparison is on text, not on clock time. */
  ghost predicate SortedByStart(s: seq<Event>)
  {
    forall i, j :: 0 <= i < j < |s| ==> StartsNoLater(s[i], s[j])
  }

  /** `filteredEvents.sort(...)`: sorts the array in place by start time; the
      result is a permutation of the input in ascending start-time order. */
  method SortByStartTime(a: array<Event>)
    modifies a
    ensures SortedByStart(a[..])
    ensures multiset(a[..]) == old(multiset(a[..]))
  {
    var i := 0;
    while i < a.Length
      invariant 0 <= i <= a.Length
      invariant forall k, l :: 0 <= k < l < i ==> StartsNoLater(a[k], a[l])
      invariant multiset(a[..]) == old(multiset(a[..]))
    {
      InsertAt(a, i);
      i := i + 1;
    }
  }

  /** One insertion step: with `a[..i]` sorted, moves `a[i]` left past every
      element that starts strictly later, so `a[..i + 1]` is sorted. */
  method InsertAt(a: array<Event>, i: int)
    requires 0 <= i < a.Length
    requires forall k, l :: 0 <= k < l < i ==> StartsNoLater(a[k], a[l])
    modifies a
    ensures forall k, l :: 0 <= k < l <= i ==> StartsNoLater(a[k], a[l])
    ensures multiset(a[..]) == old(multiset(a[..]))
  {
    var j := i;
    while j > 0 && !StartsNoLater(a[j - 1], a[j])
      invariant 0 <= j <= i
      invariant forall k, l :: 0 <= k < l <= i && l != j ==> StartsNoLater(a[k], a[l])
      invariant multiset(a[..]) == old(multiset(a[..]))
    {
      Text.LexTotal(a[j - 1].startTime, a[j].startTime);
      a[j - 1], a[j] := a[j], a[j - 1];
      j := j - 1;
    }
    forall k, l | 0 <= k < l <= i ensures StartsNoLater(a[k], a[l]) {
      if l == j && k < j - 1 {
        Text.LexTransitive(a[k].startTime, a[j - 1].startTime, a[j].startTime);
      }
    }
  }

  /** The schedule list for the selected day: the day's events, sorted in
      place by start time. It holds exactly the day's events, each as often
      as the catalog does, in ascending start-time order. */
  method DaySchedule(events: seq<Event>, selectedDate: int) returns (shown: seq<Event>)
    ensures multiset(shown) == multiset(EventsOn(events, selectedDate))
    ensures forall e :: e in shown <==> e in events && SameDay(e.date, selectedDate)
    ensures SortedByStart(shown)
  {
    var filtered := EventsOn(events, selectedDate);
    var a := new Event[|filtered|](k requires 0 <= k < |filtered| => filtered[k]);
    assert a[..] == filtered;
    SortByStartTime(a);
    shown := a[..];
    forall e ensures e in shown <==> e in filtered {
      assert e in shown <==> e in multiset(shown);
    }
  }

  /** "No events scheduled" is shown iff no event falls on the selected day. */
  function NoEventsScheduled(events: seq<Event>, selectedDate: int): (r: bool)
    ensures r <==> forall e :: e in events ==> !SameDay(e.date, selectedDate)
  {
    Seqs.FilterEmptyIff(events, OnDay(selectedDate));
    |EventsOn(events, selectedDate)| == 0
  }

  const MaxAvatars := 4

  /** `attendees.slice(0, 4)`: the first four attendees get an avatar. */
  function AttendeeAvatars(attendees: seq<Member>): (r: seq<Member>)
    ensures |r| <= MaxAvatars
    ensures |r| == if |attendees| < MaxAvatars then |attendees| else MaxAvatars
    ensures r == attendees[..|r|]
  {
    Seqs.Take(attendees, MaxAvatars)
  }

  /** The "+N" badge: present iff there are more than four attendees, and
      then N counts exactly those without an avatar. */
  function AttendeeOverflow(attendees: seq<Member>): (r: Option<nat>)
    ensures r.Some? <==> |attendees| > MaxAvatars
    ensures r.Some? ==> r.value > 0 && |AttendeeAvatars(attendees)| + r.value == |attendees|
  {
    if |attendees| > MaxAvatars then Some(|attendees| - MaxAvatars) else None
  }

  /** The label after the attendee count. */
  function AttendeeLabel(attendees: seq<Member>): (r: string)
    ensures r == "attendee" <==> |attendees| == 1
    ensures r != "attendee" ==> r == "attendees"
  {
    if |attendees| == 1 then "attendee" else "attendees"
  }

  function EventTypeName(t: EventType): string
  {
    match t
    case Meeting => "meeting"
    case SiteVisit => "site-visit"
    case Deadline => "deadline"
    case Appointment => "appointment"
  }

  /** The type badge, `event.type.replace("-", " ")`: "site-visit" is shown
      as "site visit", and the other type names hold no dash and are shown
      as they are. */
  function EventTypeLabel(t: EventType): (r: string)
    ensures t == SiteVisit ==> r == "site visit"
    ensures t != SiteVisit ==> r == EventTypeName(t)
  {
    var s := EventTypeName(t);
    if t == SiteVisit then
      assert s == "site-visit";
      assert s[..4] == "site";
      Text.ReplaceFirstAt(s, '-', ' ', 4);
      assert s[4 := ' '] == "site visit";
      Text.ReplaceFirst(s, '-', ' ')
    else
      assert '-' !in s by {
        if t == Meeting {
          assert s == "meeting";
        } else if t == Deadline {
          assert s == "deadline";
        } else {
          assert s == "appointment";
        }
      }
      Text.ReplaceFirst(s, '-', ' ')
  }
}
