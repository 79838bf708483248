/**
 * The event repository: the `group_events` rows, the `event_responses` rows (in insertion
 * order) and, read only, the `group_members` rows. Event and response ids are UUIDs chosen
 * by the caller; dates are integers.
 */
module EventRepository {
  import opened Wrappers
  import GroupRepository

  const Going := "going"
  const NotGoing := "not_going"

  /** The text `GetEventByID` fails with when no row has the id. */
  const EventNotFound := "event not found: sql: no rows in result set"

  datatype Event = Event(id: string, groupId: string, creatorId: string, title: string, description: string, date: int)
  datatype Response = Response(eventId: string, userId: string, response: string)
  {
    predicate Of(e: string, u: string) { eventId == e && userId == u }
  }

  /** The two responses `RespondToEvent` accepts. */
  predicate ValidResponse(response: string)
  {
    response == Going || response == NotGoing
  }

  /** `GetEventByID`: the row with the id. */
  function FindEvent(events: seq<Event>, id: string): (r: Option<Event>)
    ensures r.Some? ==> r.value in events && r.value.id == id
    ensures r.None? <==> forall e :: e in events ==> e.id != id
  {
    if events == [] then None
    else if events[0].id == id then Some(events[0])
    else FindEvent(events[1..], id)
  }

  /** `UPDATE group_events SET title, description, event_date WHERE id = ?`. */
  function EventsUpdated(events: seq<Event>, id: string, title: string, description: string, date: int): (r: seq<Event>)
    ensures |r| == |events|
    ensures forall i :: 0 <= i < |events| ==>
      r[i] == if events[i].id == id then events[i].(title := title, description := description, date := date) else events[i]
  {
    seq(|events|, i requires 0 <= i < |events| =>
      if events[i].id == id then events[i].(title := title, description := description, date := date) else events[i])
  }

  /** `DELETE FROM group_events WHERE id = ?`. */
  function EventsWithout(events: seq<Event>, id: string): (r: seq<Event>)
    ensures forall e :: e in r <==> e in events && e.id != id
  {
    if events == [] then []
    else (if events[0].id == id then [] else [events[0]]) + EventsWithout(events[1..], id)
  }

  // ---------------------------------------------------------------- responses

  /** `GetUserEventResponse`: the pair's first row, or none. */
  function UserResponse(rows: seq<Response>, e: string, u: string): (r: Option<Response>)
    ensures r.Some? ==> r.value in rows && r.value.Of(e, u)
    ensures r.None? <==> forall x :: x in rows ==> !x.Of(e, u)
  {
    if rows == [] then None
    else if rows[0].Of(e, u) then Some(rows[0])
    else UserResponse(rows[1..], e, u)
  }

  /** At most one response per (event, user). */
  predicate UniquePairs(rows: seq<Response>)
  {
    forall i, j :: 0 <= i < j < |rows| ==> !rows[j].Of(rows[i].eventId, rows[i].userId)
  }

  /**
   * `AddEventResponse`: an existing response of the pair is updated in place (every row of
   * the pair, as the UPDATE does), otherwise a row is appended.
   */
  function Upserted(rows: seq<Response>, e: string, u: string, response: string): (r: seq<Response>)
    ensures UserResponse(rows, e, u).Some? ==> |r| == |rows|
    ensures UserResponse(rows, e, u).None? ==> r == rows + [Response(e, u, response)]
  {
    if UserResponse(rows, e, u).Some? then
      seq(|rows|, i requires 0 <= i < |rows| => if rows[i].Of(e, u) then rows[i].(response := response) else rows[i])
    else rows + [Response(e, u, response)]
  }

  /** After the upsert the pair's response is the new one, and no pair has two rows. */
  lemma UpsertedKeepsOnePerPair(rows: seq<Response>, e: string, u: string, response: string)
    requires UniquePairs(rows)
    ensures UniquePairs(Upserted(rows, e, u, response))
    ensures UserResponse(Upserted(rows, e, u, response), e, u) == Some(Response(e, u, response))
    ensures forall x, y :: !(x == e && y == u) ==> UserResponse(Upserted(rows, e, u, response), x, y) == UserResponse(rows, x, y)
  {
    var r := Upserted(rows, e, u, response);
    if UserResponse(rows, e, u).Some? {
      forall x, y ensures UserResponse(r, x, y) == if x == e && y == u then Some(Response(e, u, response)) else UserResponse(rows, x, y) {
        UserResponseMapped(rows, e, u, response, x, y);
      }
    } else {
      forall x, y ensures UserResponse(r, x, y) == if x == e && y == u then Some(Response(e, u, response)) else UserResponse(rows, x, y) {
        UserResponseAppended(rows, Response(e, u, response), x, y);
      }
      forall i | 0 <= i < |rows| ensures !r[|rows|].Of(r[i].eventId, r[i].userId) {
        assert rows[i] in rows;
      }
    }
  }

  /** The in-place branch of the upsert, pair by pair. */
  lemma UserResponseMapped(rows: seq<Response>, e: string, u: string, response: string, x: string, y: string)
    ensures var r := seq(|rows|, i requires 0 <= i < |rows| => if rows[i].Of(e, u) then rows[i].(response := response) else rows[i]);
      UserResponse(r, x, y) == if UserResponse(rows, x, y).Some? && x == e && y == u
        then Some(UserResponse(rows, x, y).value.(response := response)) else UserResponse(rows, x, y)
  {
    if rows != [] {
      var r := seq(|rows|, i requires 0 <= i < |rows| => if rows[i].Of(e, u) then rows[i].(response := response) else rows[i]);
      var tail := rows[1..];
      assert r[1..] == seq(|tail|, i requires 0 <= i < |tail| => if tail[i].Of(e, u) then tail[i].(response := response) else tail[i]);
      UserResponseMapped(tail, e, u, response, x, y);
    }
  }

  /** The append branch of the upsert, pair by pair. */
  lemma UserResponseAppended(rows: seq<Response>, n: Response, x: string, y: string)
    requires UserResponse(rows, n.eventId, n.userId).None?
    ensures UserResponse(rows + [n], x, y) == if x == n.eventId && y == n.userId then Some(n) else UserResponse(rows, x, y)
  {
    if rows != [] {
      assert (rows + [n])[1..] == rows[1..] + [n];
      UserResponseAppended(rows[1..], n, x, y);
    }
  }

  /** `GetEventResponses`: the event's rows newest first, of one response type unless `kind` is empty. */
  function ResponsesOf(rows: seq<Response>, e: string, kind: string): (r: seq<Response>)
    ensures forall x :: x in r <==> x in rows && x.eventId == e && (kind == "" || x.response == kind)
    ensures |r| <= |rows|
  {
    if rows == [] then []
    else
      var init := rows[..|rows| - 1];
      var last := rows[|rows| - 1];
      assert forall x :: x in rows <==> x in init || x == last;
      (if last.eventId == e && (kind == "" || last.response == kind) then [last] else []) + ResponsesOf(init, e, kind)
  }

  /** `SELECT COUNT(*) FROM event_responses WHERE event_id = ? AND response = ?`. */
  function CountOf(rows: seq<Response>, e: string, kind: string): (n: nat)
    ensures n <= |rows|
  {
    if rows == [] then 0
    else CountOf(rows[..|rows| - 1], e, kind) + (if rows[|rows| - 1].eventId == e && rows[|rows| - 1].response == kind then 1 else 0)
  }

  /** `GetEventResponseCounts`: the going and the not-going rows, counted separately. */
  function ResponseCounts(rows: seq<Response>, e: string): (counts: (nat, nat))
    ensures counts.0 == |ResponsesOf(rows, e, Going)| && counts.1 == |ResponsesOf(rows, e, NotGoing)|
  {
    CountIsListed(rows, e, Going);
    CountIsListed(rows, e, NotGoing);
    (CountOf(rows, e, Going), CountOf(rows, e, NotGoing))
  }

  /** A count agrees with the listing filtered the same way. */
  lemma {:induction false} CountIsListed(rows: seq<Response>, e: string, kind: string)
    requires kind != ""
    ensures CountOf(rows, e, kind) == |ResponsesOf(rows, e, kind)|
  {
    if rows != [] {
      CountIsListed(rows[..|rows| - 1], e, kind);
    }
  }

  /** When every row holds a valid response, the two counts add up to all of the event's responses. */
  lemma {:induction false} CountsCoverResponses(rows: seq<Response>, e: string)
    requires forall i :: 0 <= i < |rows| ==> ValidResponse(rows[i].response)
    ensures ResponseCounts(rows, e).0 + ResponseCounts(rows, e).1 == |ResponsesOf(rows, e, "")|
  {
    if rows != [] {
      var init := rows[..|rows| - 1];
      CountsCoverResponses(init, e);
      CountIsListed(init, e, Going);
      CountIsListed(init, e, NotGoing);
    }
  }

  // ---------------------------------------------------------------- members

  /**
   * `GetMemberRole` of this repository: the role of an accepted member, and an error (not
   * the empty role of the group repository) for anyone else.
   */
  function MemberRole(members: seq<GroupRepository.Member>, g: string, u: string): (r: Result<string>)
    ensures r.Err? <==> !GroupRepository.IsMember(members, g, u)
    ensures r.Err? ==> r == Err("user is not a member of this group")
    ensures r.Ok? ==> r.value == GroupRepository.MemberRole(members, g, u)
  {
    if GroupRepository.IsMember(members, g, u) then Ok(GroupRepository.MemberRole(members, g, u))
    else Err("user is not a member of this group")
  }

  // ---------------------------------------------------------------- ordering

  /** Ascending by event date. */
  predicate ByDate(events: seq<Event>)
  {
    forall i, j :: 0 <= i < j < |events| ==> events[i].date <= events[j].date
  }

  function InsertByDate(e: Event, sorted: seq<Event>): (r: seq<Event>)
    requires ByDate(sorted)
    ensures ByDate(r) && multiset(r) == multiset(sorted) + multiset{e}
  {
    if sorted == [] then [e]
    else if e.date <= sorted[0].date then [e] + sorted
    else
      var rest := InsertByDate(e, sorted[1..]);
      assert sorted == [sorted[0]] + sorted[1..];
      InsertedAbove(e, sorted, rest);
      [sorted[0]] + rest
  }

  /** What is inserted into the rows behind the earliest one is no earlier than it. */
  lemma InsertedAbove(e: Event, sorted: seq<Event>, rest: seq<Event>)
    requires ByDate(sorted) && sorted != [] && sorted[0].date < e.date
    requires multiset(rest) == multiset(sorted[1..]) + multiset{e}
    ensures forall k :: 0 <= k < |rest| ==> sorted[0].date <= rest[k].date
  {
    forall k | 0 <= k < |rest| ensures sorted[0].date <= rest[k].date {
      assert rest[k] in multiset(rest);
      if rest[k] != e {
        assert rest[k] in multiset(sorted[1..]);
        var j :| 0 <= j < |sorted[1..]| && sorted[1..][j] == rest[k];
        assert sorted[j + 1] == rest[k];
      }
    }
  }

  /** `ORDER BY event_date ASC`: the same events, ascending by date. */
  function SortByDate(events: seq<Event>): (r: seq<Event>)
    ensures ByDate(r) && multiset(r) == multiset(events)
  {
    if events == [] then []
    else
      assert events == events[..|events| - 1] + [events[|events| - 1]];
      InsertByDate(events[|events| - 1], SortByDate(events[..|events| - 1]))
  }

  /** The events of one group, in table order. */
  function EventsOf(events: seq<Event>, g: string): (r: seq<Event>)
    ensures forall e :: e in r <==> e in events && e.groupId == g
  {
    if events == [] then []
    else (if events[0].groupId == g then [events[0]] else []) + EventsOf(events[1..], g)
  }

  // ---------------------------------------------------------------- views

  /** An event as it is handed out: its row, its response counts and the asking user's response. */
  datatype EventView = EventView(event: Event, going: nat, notGoing: nat, userResponse: string)

  /** The event with the counts of its stored responses and no user response yet. */
  function ViewOf(e: Event, responses: seq<Response>): (v: EventView)
    ensures v.event == e && v.userResponse == ""
    ensures v.going == |ResponsesOf(responses, e.id, Going)| && v.notGoing == |ResponsesOf(responses, e.id, NotGoing)|
  {
    var counts := ResponseCounts(responses, e.id);
    EventView(e, counts.0, counts.1, "")
  }

  /** `GetEventByID`: the row with the id and its counts, or the wrapped no-rows error. */
  function GetEventByID(events: seq<Event>, responses: seq<Response>, id: string): (r: Result<EventView>)
    ensures r.Err? <==> FindEvent(events, id).None?
    ensures r.Err? ==> r.msg == EventNotFound
    ensures r.Ok? ==> r.value == ViewOf(FindEvent(events, id).value, responses) && r.value.event in events && r.value.event.id == id
  {
    match FindEvent(events, id)
    case None => Err(EventNotFound)
    case Some(e) => Ok(ViewOf(e, responses))
  }

  /** `GetGroupEvents` of the repository: the group's events ascending by date, each with its counts. */
  function GroupEvents(events: seq<Event>, responses: seq<Response>, g: string): (r: seq<EventView>)
    ensures |r| == |SortByDate(EventsOf(events, g))|
    ensures forall i :: 0 <= i < |r| ==> r[i] == ViewOf(SortByDate(EventsOf(events, g))[i], responses)
    ensures forall i :: 0 <= i < |r| ==> r[i].event in events && r[i].event.groupId == g
    ensures forall i, j :: 0 <= i < j < |r| ==> r[i].event.date <= r[j].event.date
  {
    var sorted := SortByDate(EventsOf(events, g));
    SortedOfGroup(events, g);
    seq(|sorted|, i requires 0 <= i < |sorted| => ViewOf(sorted[i], responses))
  }

  /** The sorted events of a group are events of that group. */
  lemma SortedOfGroup(events: seq<Event>, g: string)
    ensures forall i :: 0 <= i < |SortByDate(EventsOf(events, g))| ==>
      SortByDate(EventsOf(events, g))[i] in events && SortByDate(EventsOf(events, g))[i].groupId == g
  {
    var sorted := SortByDate(EventsOf(events, g));
    forall i | 0 <= i < |sorted| ensures sorted[i] in events && sorted[i].groupId == g {
      assert sorted[i] in multiset(sorted);
      assert sorted[i] in multiset(EventsOf(events, g));
    }
  }

  /** A new event appended behind no row with its id is the one found. */
  lemma FindAppended(events: seq<Event>, e: Event)
    requires FindEvent(events, e.id).None?
    ensures FindEvent(events + [e], e.id) == Some(e)
  {
    if events != [] {
      assert (events + [e])[1..] == events[1..] + [e];
      FindAppended(events[1..], e);
    }
  }

  /** After the update the event found under the id carries the new fields. */
  lemma FindUpdatedEvent(events: seq<Event>, id: string, title: string, description: string, date: int)
    requires FindEvent(events, id).Some?
    ensures FindEvent(EventsUpdated(events, id, title, description, date), id) ==
      Some(FindEvent(events, id).value.(title := title, description := description, date := date))
  {
    var r := EventsUpdated(events, id, title, description, date);
    if events[0].id == id {
      assert r[0] == events[0].(title := title, description := description, date := date);
    } else {
      assert r[0] == events[0];
      var tail := EventsUpdated(events[1..], id, title, description, date);
      assert r[1..] == tail by {
        forall k | 0 <= k < |tail| ensures r[1..][k] == tail[k] {
          assert r[1..][k] == r[k + 1];
        }
      }
      FindUpdatedEvent(events[1..], id, title, description, date);
    }
  }

  // ---------------------------------------------------------------- the store

  class EventStore {
    var events: seq<Event>
    var responses: seq<Response>
    var members: seq<GroupRepository.Member>

    /** One response per pair, and every stored response is one `RespondToEvent` accepts. */
    ghost predicate Valid()
      reads this
    {
      UniquePairs(responses) && forall i :: 0 <= i < |responses| ==> ValidResponse(responses[i].response)
    }

    constructor(members: seq<GroupRepository.Member>)
      ensures this.members == members && events == [] && responses == []
      ensures Valid()
    {
      this.members := members;
      events, responses := [], [];
    }

    /** `CreateEvent`. */
    method CreateEvent(e: Event)
      modifies this
      ensures events == old(events) + [e]
      ensures responses == old(responses) && members == old(members)
    {
      events := events + [e];
    }

    /** `UpdateEvent`. */
    method UpdateEvent(id: string, title: string, description: string, date: int)
      modifies this
      ensures events == EventsUpdated(old(events), id, title, description, date)
      ensures responses == old(responses) && members == old(members)
    {
      events := EventsUpdated(events, id, title, description, date);
    }

    /** `DeleteEvent`: the event row only; its responses stay. */
    method DeleteEvent(id: string)
      modifies this
      ensures events == EventsWithout(old(events), id)
      ensures responses == old(responses) && members == old(members)
    {
      events := EventsWithout(events, id);
    }

    /** `AddEventResponse`. */
    method AddEventResponse(e: string, u: string, response: string)
      modifies this
      ensures responses == Upserted(old(responses), e, u, response)
      ensures old(Valid()) && ValidResponse(response) ==> Valid()
      ensures old(UniquePairs(responses)) ==> UserResponse(responses, e, u) == Some(Response(e, u, response))
      ensures events == old(events) && members == old(members)
    {
      if UniquePairs(responses) {
        UpsertedKeepsOnePerPair(responses, e, u, response);
      }
      responses := Upserted(responses, e, u, response);
    }
  }
}
