/** The project record and the values the project card derives from it:
    status badge colour and label, avatar initials, the "+N" team badge
    and the footer. */
module ProjectCard {
  import opened Common
  import Text

  datatype Status = Pending | Active | Completed | OnHold

  /** A project. `dueDate` is the parsed due date as an instant. */
  datatype Project = Project(
    id: string,
    title: string,
    client: string,
    status: Status,
    progress: int,
    dueDate: int,
    team: seq<Member>,
    documents: nat)

  /** The status as the string the source stores. */
  function StatusName(st: Status): (r: string)
    ensures r in ["pending", "active", "completed", "on-hold"]
  {
    match st
    case Pending => "pending"
    case Active => "active"
    case Completed => "completed"
    case OnHold => "on-hold"
  }

  lemma StatusNameInjective(a: Status, b: Status)
    requires StatusName(a) == StatusName(b)
    ensures a == b
  {
  }

  const Yellow := "bg-yellow-100 text-yellow-800 dark:bg-yellow-900 dark:text-yellow-300"
  const Blue := "bg-blue-100 text-blue-800 dark:bg-blue-900 dark:text-blue-300"
  const Green := "bg-green-100 text-green-800 dark:bg-green-900 dark:text-green-300"
  const Grey := "bg-gray-100 text-gray-800 dark:bg-gray-800 dark:text-gray-300"

  /** `getStatusColor`: a class per known status; "on-hold" and any other
      string share the grey class. */
  function StatusColor(status: string): (r: string)
    ensures r == Grey <==> status !in ["pending", "active", "completed"]
    ensures r in [Yellow, Blue, Green, Grey]
  {
    if status == "pending" then Yellow
    else if status == "active" then Blue
    else if status == "completed" then Green
    else if status == "on-hold" then Grey
    else Grey
  }

  /** Distinct statuses get distinct colours, except that on-hold is grey
      like every unknown string. */
  lemma StatusColorsDistinct(a: Status, b: Status)
    requires a != b
    ensures StatusColor(StatusName(a)) != StatusColor(StatusName(b)) <==> a != OnHold || b != OnHold
  {
  }

  /** The badge text `status.replace("-", " ")`: "on-hold" is shown as
      "on hold", and the other status names hold no dash and are shown as
      they are. */
  function StatusLabel(st: Status): (r: string)
    ensures st == OnHold ==> r == "on hold"
    ensures st != OnHold ==> r == StatusName(st)
  {
    var s := StatusName(st);
    if st == OnHold then
      assert s == "on-hold";
      assert s[..2] == "on";
      Text.ReplaceFirstAt(s, '-', ' ', 2);
      assert s[2 := ' '] == "on hold";
      Text.ReplaceFirst(s, '-', ' ')
    else
      assert '-' !in s by {
        if st == Pending {
          assert s == "pending";
        } else if st == Active {
          assert s == "active";
        } else {
          assert s == "completed";
        }
      }
      Text.ReplaceFirst(s, '-', ' ')
  }

  /** `name.split(" ")`: the pieces between single spaces, empty ones included. */
  function Split(s: string): (r: seq<string>)
    ensures |r| >= 1
    ensures forall k :: 0 <= k < |r| ==> ' ' !in r[k]
  {
    if s == [] then [[]]
    else if s[0] == ' ' then [[]] + Split(s[1..])
    else
      var rest := Split(s[1..]);
      [[s[0]] + rest[0]] + rest[1..]
  }

  /** `pieces.join(" ")`. */
  function Join(pieces: seq<string>): string
  {
    if pieces == [] then []
    else if |pieces| == 1 then pieces[0]
    else pieces[0] + [' '] + Join(pieces[1..])
  }

  /** Splitting on spaces and joining with spaces gives the name back. */
  lemma {:induction false} JoinSplit(s: string)
    ensures Join(Split(s)) == s
  {
    if s != [] {
      JoinSplit(s[1..]);
      var rest := Split(s[1..]);
      if s[0] == ' ' {
        assert Split(s)[1..] == rest;
      } else {
        var r := Split(s);
        assert r[0] == [s[0]] + rest[0];
        if |rest| == 1 {
          assert r == [[s[0]] + rest[0]];
        } else {
          assert r[1..] == rest[1..];
          assert Join(rest) == rest[0] + [' '] + Join(rest[1..]);
        }
      }
    }
  }

  /** `pieces.map(n => n[0]).join("")`: `n[0]` of an empty piece is
      undefined, which `join` writes as nothing. */
  function FirstChars(pieces: seq<string>): string
  {
    if pieces == [] then []
    else (if pieces[0] != [] then [pieces[0][0]] else []) + FirstChars(pieces[1..])
  }

  /** The avatar fallback `name.split(" ").map(n => n[0]).join("")`: never
      holds a space and is never longer than the name (see also
      InitialsAreWordStarts). */
  function Initials(name: string): (r: string)
    ensures |r| <= |name|
    ensures ' ' !in r
  {
    WordStartsSplit(name, true);
    WordStartsBounds(name, true);
    FirstChars(Split(name))
  }

  /** Reference definition of initials by one left-to-right scan: a
      character is an initial when it is not a space and is the first
      character or follows a space. */
  function WordStarts(s: string, atStart: bool): string
  {
    if s == [] then []
    else (if s[0] != ' ' && atStart then [s[0]] else []) + WordStarts(s[1..], s[0] == ' ')
  }

  lemma {:induction false} WordStartsSplit(s: string, atStart: bool)
    ensures WordStarts(s, atStart) == if atStart then FirstChars(Split(s)) else FirstChars(Split(s)[1..])
  {
    if s != [] {
      WordStartsSplit(s[1..], true);
      WordStartsSplit(s[1..], false);
      var rest := Split(s[1..]);
      if s[0] == ' ' {
        assert Split(s) == [[]] + rest;
        assert Split(s)[1..] == rest;
        assert FirstChars(Split(s)) == FirstChars(rest);
      } else {
        var r := Split(s);
        assert r[1..] == rest[1..];
        assert r[0] == [s[0]] + rest[0];
        assert FirstChars(r) == [s[0]] + FirstChars(rest[1..]);
      }
    }
  }

  /** The initials are exactly the first characters of the space-separated
      words, e.g. "Alex Smith" gives "AS". */
  lemma InitialsAreWordStarts(name: string)
    ensures Initials(name) == WordStarts(name, true)
  {
    WordStartsSplit(name, true);
  }

  lemma {:induction false} WordStartsBounds(s: string, atStart: bool)
    ensures |WordStarts(s, atStart)| <= |s|
    ensures ' ' !in WordStarts(s, atStart)
  {
    if s != [] {
      WordStartsBounds(s[1..], s[0] == ' ');
    }
  }

  /** One avatar per team member, with no cap: the initials of each. */
  function TeamAvatars(team: seq<Member>): (r: seq<string>)
    ensures |r| == |team|
    ensures forall k :: 0 <= k < |team| ==> r[k] == Initials(team[k].name)
  {
    if team == [] then [] else [Initials(team[0].name)] + TeamAvatars(team[1..])
  }

  /** The "+N" badge after the avatars: present iff the team has more than
      three members, and then N plus three is the team size. */
  function TeamOverflow(team: seq<Member>): (r: Option<nat>)
    ensures r.Some? <==> |team| > 3
    ensures r.Some? ==> r.value > 0 && r.value + 3 == |team|
  {
    if |team| > 3 then Some(|team| - 3) else None
  }

  /** The footer text. */
  function FooterLabel(st: Status): (r: string)
    ensures r == "Completed" <==> st == Completed
    ensures r != "Completed" ==> r == "In progress"
  {
    if StatusName(st) == "completed" then "Completed" else "In progress"
  }
}
