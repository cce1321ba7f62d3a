/** The staff review page's event list: editing a field, deleting, adding a blank event, and
    the counts and publish switch derived from the list. */
module EventReview {
  import opened Wrappers
  import opened Strings
  import opened Json
  import BatchRoute

  /** An extracted event under review; `description` is optional. */
  datatype Event = Event(id: int, name: string, date: string, time: string, location: string,
                         description: Option<string>)

  /** The editable fields; the page never edits `id`. */
  datatype Field = Name | Date | Time | Location | Description

  /** A field as the page shows it; a missing description shows as "". */
  function GetField(e: Event, f: Field): string
  {
    match f
    case Name => e.name
    case Date => e.date
    case Time => e.time
    case Location => e.location
    case Description => e.description.GetOr("")
  }

  /** `{ ...event, [field]: value }`. */
  function SetField(e: Event, f: Field, v: string): (r: Event)
    ensures r.id == e.id
    ensures GetField(r, f) == v
    ensures forall g :: g != f ==> GetField(r, g) == GetField(e, g)
    ensures f != Description ==> r.description == e.description
  {
    match f
    case Name => e.(name := v)
    case Date => e.(date := v)
    case Time => e.(time := v)
    case Location => e.(location := v)
    case Description => e.(description := Some(v))
  }

  /** `handleInputChange`: set one field on every event carrying `id`. */
  function UpdateField(events: seq<Event>, id: int, f: Field, v: string): (r: seq<Event>)
    ensures |r| == |events|
    ensures forall i :: 0 <= i < |r| ==> r[i].id == events[i].id
    ensures forall i :: 0 <= i < |r| && events[i].id != id ==> r[i] == events[i]
    ensures forall i :: 0 <= i < |r| && events[i].id == id ==>
              GetField(r[i], f) == v && forall g :: g != f ==> GetField(r[i], g) == GetField(events[i], g)
    ensures forall i :: 0 <= i < |r| && events[i].id == id && f != Description ==>
              r[i].description == events[i].description
  {
    seq(|events|, i requires 0 <= i < |events| => if events[i].id == id then SetField(events[i], f, v) else events[i])
  }

  /** Number of events carrying `id`. */
  function CountId(events: seq<Event>, id: int): (n: nat)
    ensures n <= |events|
  {
    if |events| == 0 then 0 else (if events[0].id == id then 1 else 0) + CountId(events[1..], id)
  }

  /** `a` is `b` with some elements left out, the rest in their order. */
  predicate IsSubsequence(a: seq<Event>, b: seq<Event>)
    decreases |b|
  {
    if |a| == 0 then true
    else if |b| == 0 then false
    else if a[0] == b[0] then IsSubsequence(a[1..], b[1..])
    else IsSubsequence(a, b[1..])
  }

  /** `handleDelete`: keep the events whose id differs. */
  function Delete(events: seq<Event>, id: int): (r: seq<Event>)
    ensures forall e :: e in r <==> e in events && e.id != id
    ensures |r| == |events| - CountId(events, id)
    ensures IsSubsequence(r, events)
  {
    if |events| == 0 then []
    else
      var rest := Delete(events[1..], id);
      if events[0].id != id then
        [events[0]] + rest
      else
        assert forall e :: e in rest ==> e != events[0];
        assert |rest| == 0 || rest[0] != events[0];
        SubsequenceSkip(rest, events);
        rest
  }

  lemma SubsequenceSkip(a: seq<Event>, b: seq<Event>)
    requires |b| > 0 && IsSubsequence(a, b[1..])
    requires |a| == 0 || a[0] != b[0]
    ensures IsSubsequence(a, b)
  {
  }

  /** The id `handleAddEvent` gives a new event: 1 for an empty list, else the largest id plus one. */
  function NewId(events: seq<Event>): (id: int)
    ensures |events| == 0 ==> id == 1
    ensures forall e :: e in events ==> e.id < id
    ensures |events| > 0 ==> exists e :: e in events && e.id == id - 1
  {
    if |events| == 0 then 1
    else if |events| == 1 then events[0].id + 1
    else
      var tail := NewId(events[1..]);
      assert events[1] in events[1..];
      if events[0].id + 1 > tail then events[0].id + 1 else tail
  }

  /** A blank event with the given id. */
  function Blank(id: int): Event
  {
    Event(id, "", "", "", "", Some(""))
  }

  /** `handleAddEvent`: append one blank event with a fresh id. */
  function AddEvent(events: seq<Event>): (r: seq<Event>)
    ensures |r| == |events| + 1
    ensures r[..|events|] == events
    ensures r[|events|] == Blank(NewId(events))
    ensures forall e :: e in events ==> e.id != r[|events|].id
  {
    events + [Blank(NewId(events))]
  }

  /** Every event carries a different id. */
  predicate DistinctIds(events: seq<Event>)
  {
    forall i, j :: 0 <= i < j < |events| ==> events[i].id != events[j].id
  }

  /** Adding keeps ids distinct. */
  lemma AddKeepsIdsDistinct(events: seq<Event>)
    requires DistinctIds(events)
    ensures DistinctIds(AddEvent(events))
  {
    var r := AddEvent(events);
    forall i, j | 0 <= i < j < |r|
      ensures r[i].id != r[j].id
    {
      if j == |events| {
        assert r[i] == events[i] && events[i] in events;
      } else {
        assert r[i] == events[i] && r[j] == events[j];
      }
    }
  }

  lemma {:induction false} DeleteAbsent(events: seq<Event>, id: int)
    requires forall e :: e in events ==> e.id != id
    ensures Delete(events, id) == events
    decreases |events|
  {
    if |events| > 0 {
      assert forall e :: e in events[1..] ==> e in events;
      DeleteAbsent(events[1..], id);
    }
  }

  lemma {:induction false} DeleteAppend(a: seq<Event>, b: seq<Event>, id: int)
    ensures Delete(a + b, id) == Delete(a, id) + Delete(b, id)
    decreases |a|
  {
    if |a| == 0 {
      assert a + b == b;
    } else {
      assert (a + b)[1..] == a[1..] + b;
      DeleteAppend(a[1..], b, id);
    }
  }

  /** Deleting the event just added gives back the list as it was. */
  lemma DeleteUndoesAdd(events: seq<Event>)
    ensures Delete(AddEvent(events), NewId(events)) == events
  {
    var id := NewId(events);
    DeleteAppend(events, [Blank(id)], id);
    DeleteAbsent(events, id);
  }

  /** Deleting twice is deleting once. */
  lemma {:induction false} DeleteIdempotent(events: seq<Event>, id: int)
    ensures Delete(Delete(events, id), id) == Delete(events, id)
  {
    DeleteAbsent(Delete(events, id), id);
  }

  /** Editing an event and then deleting it is the same as deleting it. */
  lemma {:induction false} DeleteAfterUpdate(events: seq<Event>, id: int, f: Field, v: string)
    ensures Delete(UpdateField(events, id, f, v), id) == Delete(events, id)
    decreases |events|
  {
    if |events| > 0 {
      assert UpdateField(events, id, f, v)[1..] == UpdateField(events[1..], id, f, v);
      DeleteAfterUpdate(events[1..], id, f, v);
    }
  }

  /** "n events = 2n signup forms": two forms per event. */
  function FormCount(events: seq<Event>): nat
  {
    BatchRoute.FormsPerEvent * |events|
  }

  /** The publish button is disabled while publishing and when there is nothing to publish. */
  predicate PublishDisabled(isPublishing: bool, events: seq<Event>)
  {
    isPublishing || |events| == 0
  }

  /** The body `handlePublish` posts: the event list as a JSON array. */
  function EventJson(e: Event): JsValue
  {
    var fields := map["id" := Number(e.id), "name" := Str(e.name), "date" := Str(e.date),
                      "time" := Str(e.time), "location" := Str(e.location)];
    Object(if e.description.Some? then fields["description" := Str(e.description.value)] else fields)
  }

  function PublishBody(events: seq<Event>): (b: Body)
    ensures b.Parsed? && b.value.Array? && |b.value.items| == |events|
  {
    Parsed(Array(seq(|events|, i requires 0 <= i < |events| => EventJson(events[i]))))
  }

  /** What the page promises before publishing is what the batch route reports: its
      `eventCount` is the list's length and its `formCount` the page's form count. */
  lemma PageCountsMatchBatchRoute(events: seq<Event>, thrown: string)
    ensures var resp := BatchRoute.HandleBatch(PublishBody(events), thrown);
            && resp.status == 200
            && BodyField(resp, "eventCount") == Number(|events|)
            && BodyField(resp, "formCount") == Number(FormCount(events))
  {
  }

  /** Publishing is enabled exactly when not already publishing and the batch route would
      report at least one event. */
  lemma PublishEnabledIffEvents(isPublishing: bool, events: seq<Event>, thrown: string)
    ensures !PublishDisabled(isPublishing, events) <==>
            !isPublishing && BatchRoute.HandleBatch(PublishBody(events), thrown).body["eventCount"] != Number(0)
  {
  }
}
