/**
 * The event service: creating, reading, updating and deleting the events of a group, and the
 * members' going / not-going answers. Banner uploads, creator look-ups and the notification
 * delivery are not modelled; the event id (a random UUID) is a parameter.
 */
module EventService {
  import opened Wrappers
  import GroupRepository
  import opened EventRepository

  /** Whether `u` is an accepted member of `g` (`IsGroupMember`). */
  predicate IsMember(members: seq<GroupRepository.Member>, g: string, u: string)
  {
    GroupRepository.IsMember(members, g, u)
  }

  /** Whether `u` may update or delete the event: its creator, or an admin of its group. */
  predicate MayManage(members: seq<GroupRepository.Member>, e: Event, u: string)
  {
    e.creatorId == u ||
    (IsMember(members, e.groupId, u) && GroupRepository.MemberRole(members, e.groupId, u) == GroupRepository.Admin)
  }

  /** The creator-or-admin check shared by `UpdateEvent` and `DeleteEvent`; `verb` names the action. */
  function ManageRefusal(members: seq<GroupRepository.Member>, e: Event, u: string, verb: string): (refusal: Option<string>)
    ensures refusal.None? <==> MayManage(members, e, u)
    ensures e.creatorId != u && !IsMember(members, e.groupId, u) ==> refusal == Some("user is not a member of this group")
    ensures e.creatorId != u && IsMember(members, e.groupId, u) && refusal.Some? ==>
      refusal == Some("only the event creator or group admins can " + verb + " this event")
  {
    if e.creatorId == u then None
    else match MemberRole(members, e.groupId, u)
      case Err(msg) => Some(msg)
      case Ok(role) => if role != GroupRepository.Admin then Some("only the event creator or group admins can " + verb + " this event") else None
  }

  /** The users told about a new event: every accepted member of the group but its creator. */
  function Recipients(members: seq<GroupRepository.Member>, g: string, u: string): (r: seq<string>)
    ensures forall x :: x in r <==> x != u && IsMember(members, g, x)
  {
    if members == [] then []
    else
      var m := members[0];
      var rest := Recipients(members[1..], g, u);
      assert forall x :: IsMember(members, g, x) <==> (m.Of(g, x) && m.status == GroupRepository.Accepted) || IsMember(members[1..], g, x) by {
        forall x ensures IsMember(members, g, x) <==> (m.Of(g, x) && m.status == GroupRepository.Accepted) || IsMember(members[1..], g, x) {
          if IsMember(members, g, x) && !(m.Of(g, x) && m.status == GroupRepository.Accepted) {
            var n :| n in members && n.Of(g, x) && n.status == GroupRepository.Accepted;
            assert n in members[1..];
          }
          if IsMember(members[1..], g, x) {
            var n :| n in members[1..] && n.Of(g, x) && n.status == GroupRepository.Accepted;
            assert n in members;
          }
        }
      }
      (if m.groupId == g && m.status == GroupRepository.Accepted && m.userId != u then [m.userId] else []) + rest
  }

  /** The user's stored answer, "" when there is none. */
  function AnswerOf(responses: seq<Response>, e: string, u: string): (answer: string)
    ensures UserResponse(responses, e, u).None? ==> answer == ""
    ensures UserResponse(responses, e, u).Some? ==> answer == UserResponse(responses, e, u).value.response
  {
    match UserResponse(responses, e, u)
    case None => ""
    case Some(x) => x.response
  }

  /** `GetEvent`: a member of the event's group sees the event with the counts and their own answer. */
  function GetEvent(events: seq<Event>, responses: seq<Response>, members: seq<GroupRepository.Member>, id: string, u: string): (r: Result<EventView>)
    ensures r.Ok? <==> FindEvent(events, id).Some? && IsMember(members, FindEvent(events, id).value.groupId, u)
    ensures FindEvent(events, id).None? ==> r == Err(EventNotFound)
    ensures FindEvent(events, id).Some? && !IsMember(members, FindEvent(events, id).value.groupId, u) ==>
      r == Err("you must be a member of the group to view this event")
    ensures r.Ok? ==> r.value.event == FindEvent(events, id).value && r.value.userResponse == AnswerOf(responses, id, u)
    ensures r.Ok? ==> r.value.going == |ResponsesOf(responses, id, Going)| && r.value.notGoing == |ResponsesOf(responses, id, NotGoing)|
  {
    match GetEventByID(events, responses, id)
    case Err(msg) => Err(msg)
    case Ok(view) =>
      if !IsMember(members, view.event.groupId, u) then Err("you must be a member of the group to view this event")
      else Ok(view.(userResponse := AnswerOf(responses, id, u)))
  }

  /** When every stored answer is a valid one, an event's two counts add up to all of its answers. */
  lemma CountsCoverAnswers(events: seq<Event>, responses: seq<Response>, members: seq<GroupRepository.Member>, id: string, u: string)
    requires forall i :: 0 <= i < |responses| ==> ValidResponse(responses[i].response)
    requires GetEvent(events, responses, members, id, u).Ok?
    ensures GetEvent(events, responses, members, id, u).value.going + GetEvent(events, responses, members, id, u).value.notGoing
      == |ResponsesOf(responses, id, "")|
  {
    CountsCoverResponses(responses, id);
  }

  /** An answer that is stored shows as the member's answer the next time they read the event. */
  lemma AnswerShows(events: seq<Event>, responses: seq<Response>, members: seq<GroupRepository.Member>, id: string, u: string, answer: string)
    requires UniquePairs(responses)
    requires GetEvent(events, responses, members, id, u).Ok?
    ensures GetEvent(events, Upserted(responses, id, u, answer), members, id, u).Ok?
    ensures GetEvent(events, Upserted(responses, id, u, answer), members, id, u).value.userResponse == answer
  {
    UpsertedKeepsOnePerPair(responses, id, u, answer);
  }

  /** `GetGroupEvents`: for a member, the group's events by date, each with the member's answer. */
  method GetGroupEvents(store: EventStore, g: string, u: string) returns (r: Result<seq<EventView>>)
    ensures r.Ok? <==> IsMember(store.members, g, u)
    ensures r.Err? ==> r == Err("you must be a member of the group to view events")
    ensures r.Ok? ==> |r.value| == |GroupEvents(store.events, store.responses, g)|
    ensures r.Ok? ==> forall i :: 0 <= i < |r.value| ==>
      r.value[i] == GroupEvents(store.events, store.responses, g)[i].(userResponse := AnswerOf(store.responses, r.value[i].event.id, u))
  {
    if !IsMember(store.members, g, u) {
      return Err("you must be a member of the group to view events");
    }
    var events := GroupEvents(store.events, store.responses, g);
    var views: seq<EventView> := [];
    var i := 0;
    while i < |events|
      invariant 0 <= i <= |events| && |views| == i
      invariant forall k :: 0 <= k < i ==> views[k] == events[k].(userResponse := AnswerOf(store.responses, events[k].event.id, u))
    {
      views := views + [events[i].(userResponse := AnswerOf(store.responses, events[i].event.id, u))];
      i := i + 1;
    }
    return Ok(views);
  }

  /** `RespondToEvent`: a member of the event's group answers going or not going; a second answer replaces the first. */
  method RespondToEvent(store: EventStore, id: string, u: string, answer: string) returns (r: Status)
    modifies store
    ensures r.Success? <==> (ValidResponse(answer) && FindEvent(old(store.events), id).Some? &&
      IsMember(old(store.members), FindEvent(old(store.events), id).value.groupId, u))
    ensures !ValidResponse(answer) ==> r == Failure("invalid response type")
    ensures ValidResponse(answer) && FindEvent(old(store.events), id).None? ==> r == Failure(EventNotFound)
    ensures (ValidResponse(answer) && FindEvent(old(store.events), id).Some? &&
      !IsMember(old(store.members), FindEvent(old(store.events), id).value.groupId, u)) ==>
      r == Failure("you must be a member of the group to respond to this event")
    ensures r.Success? ==> store.responses == Upserted(old(store.responses), id, u, answer)
    ensures r.Success? && old(UniquePairs(store.responses)) ==> UserResponse(store.responses, id, u) == Some(Response(id, u, answer))
    ensures r.Failure? ==> store.responses == old(store.responses)
    ensures old(store.Valid()) ==> store.Valid()
    ensures store.events == old(store.events) && store.members == old(store.members)
  {
    if !ValidResponse(answer) {
      return Failure("invalid response type");
    }
    var event := GetEventByID(store.events, store.responses, id);
    if event.Err? {
      return Failure(event.msg);
    }
    if !IsMember(store.members, event.value.event.groupId, u) {
      return Failure("you must be a member of the group to respond to this event");
    }
    store.AddEventResponse(id, u, answer);
    return Success;
  }

  /**
   * `CreateEvent`: a member creates an event (under the fresh id `id`), every other accepted
   * member is told, and the creator's own answer is stored. The event returned carries the
   * counts read before that answer. An invalid answer fails the call, but the event stays.
   */
  method CreateEvent(store: EventStore, id: string, g: string, u: string, title: string, description: string, date: int, answer: string)
    returns (r: Result<EventView>, notified: seq<string>)
    requires FindEvent(store.events, id).None?
    modifies store
    ensures !IsMember(old(store.members), g, u) ==>
      r == Err("you must be a member of the group to create an event") && notified == [] &&
      store.events == old(store.events) && store.responses == old(store.responses)
    ensures IsMember(old(store.members), g, u) ==>
      store.events == old(store.events) + [Event(id, g, u, title, description, date)] &&
      notified == Recipients(old(store.members), g, u)
    ensures IsMember(old(store.members), g, u) && ValidResponse(answer) ==>
      r == Ok(ViewOf(Event(id, g, u, title, description, date), old(store.responses))) &&
      store.responses == Upserted(old(store.responses), id, u, answer)
    ensures IsMember(old(store.members), g, u) && !ValidResponse(answer) ==>
      r == Err("failed to respond to event: " + "invalid response type") && store.responses == old(store.responses)
    ensures old(store.Valid()) ==> store.Valid()
    ensures store.members == old(store.members)
  {
    notified := [];
    if !IsMember(store.members, g, u) {
      return Err("you must be a member of the group to create an event"), notified;
    }
    var e := Event(id, g, u, title, description, date);
    FindAppended(store.events, e);
    store.CreateEvent(e);
    var full := GetEventByID(store.events, store.responses, id);
    notified := Recipients(store.members, g, u);
    var answered := RespondToEvent(store, id, u, answer);
    if answered.Failure? {
      assert answered.msg == "invalid response type";
      return Err("failed to respond to event: " + answered.msg), notified;
    }
    return full, notified;
  }

  /** `UpdateEvent`: the creator or a group admin sets the title, description and date. */
  method UpdateEvent(store: EventStore, id: string, u: string, title: string, description: string, date: int)
    returns (r: Result<EventView>)
    modifies store
    ensures r.Ok? <==> FindEvent(old(store.events), id).Some? && MayManage(store.members, FindEvent(old(store.events), id).value, u)
    ensures FindEvent(old(store.events), id).None? ==> r == Err(EventNotFound)
    ensures FindEvent(old(store.events), id).Some? && r.Err? ==>
      r == Err(ManageRefusal(store.members, FindEvent(old(store.events), id).value, u, "update").value)
    ensures r.Ok? ==> store.events == EventsUpdated(old(store.events), id, title, description, date)
    ensures r.Ok? ==> r.value == ViewOf(FindEvent(old(store.events), id).value.(title := title, description := description, date := date), store.responses)
    ensures r.Err? ==> store.events == old(store.events)
    ensures store.responses == old(store.responses) && store.members == old(store.members)
  {
    var found := GetEventByID(store.events, store.responses, id);
    if found.Err? {
      return Err(found.msg);
    }
    var refusal := ManageRefusal(store.members, found.value.event, u, "update");
    if refusal.Some? {
      return Err(refusal.value);
    }
    FindUpdatedEvent(store.events, id, title, description, date);
    store.UpdateEvent(id, title, description, date);
    r := GetEventByID(store.events, store.responses, id);
  }

  /** `DeleteEvent`: the creator or a group admin removes the event; its answers are left behind. */
  method DeleteEvent(store: EventStore, id: string, u: string) returns (r: Status)
    modifies store
    ensures r.Success? <==> FindEvent(old(store.events), id).Some? && MayManage(store.members, FindEvent(old(store.events), id).value, u)
    ensures FindEvent(old(store.events), id).None? ==> r == Failure(EventNotFound)
    ensures FindEvent(old(store.events), id).Some? && r.Failure? ==>
      r == Failure(ManageRefusal(store.members, FindEvent(old(store.events), id).value, u, "delete").value)
    ensures r.Success? ==> store.events == EventsWithout(old(store.events), id) && FindEvent(store.events, id).None?
    ensures r.Failure? ==> store.events == old(store.events)
    ensures store.responses == old(store.responses) && store.members == old(store.members)
  {
    var found := GetEventByID(store.events, store.responses, id);
    if found.Err? {
      return Failure(found.msg);
    }
    var refusal := ManageRefusal(store.members, found.value.event, u, "delete");
    if refusal.Some? {
      return Failure(refusal.value);
    }
    store.DeleteEvent(id);
    return Success;
  }

  /** `GetEventResponses`: for a member of the event's group, its answers newest first, of one kind unless `kind` is empty. */
  function GetEventResponses(events: seq<Event>, responses: seq<Response>, members: seq<GroupRepository.Member>, id: string, u: string, kind: string)
    : (r: Result<seq<Response>>)
    ensures r.Ok? <==> FindEvent(events, id).Some? && IsMember(members, FindEvent(events, id).value.groupId, u)
    ensures FindEvent(events, id).None? ==> r == Err(EventNotFound)
    ensures FindEvent(events, id).Some? && r.Err? ==> r == Err("you must be a member of the group to view event responses")
    ensures r.Ok? ==> forall x :: x in r.value <==> x in responses && x.eventId == id && (kind == "" || x.response == kind)
  {
    match GetEventByID(events, responses, id)
    case Err(msg) => Err(msg)
    case Ok(view) =>
      if !IsMember(members, view.event.groupId, u) then Err("you must be a member of the group to view event responses")
      else Ok(ResponsesOf(responses, id, kind))
  }
}
