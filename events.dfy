/**
 * The calendar event documents the routes send: the body `create_event`
 * builds from the request with its defaults, and the partial update
 * `update_event` applies to an event fetched from the calendar before it is
 * sent back. Both are JSON objects, modelled as maps from key to value.
 */
module Events {
  import opened Wrappers
  import opened Substrings

  /** A JSON value as far as these routes look at it. */
  datatype Value = Null | Text(text: string) | Object(fields: map<string, Value>)

  type Document = map<string, Value>

  /** The time zone label every created event carries. */
  const TimeZone := "Asia/Kolkata"

  /** The keys whose value a patch replaces outright. */
  const TopLevelKeys: set<string> := {"summary", "location", "description"}

  /** The keys whose nested `dateTime` a patch replaces. */
  const TimeKeys: set<string> := {"start", "end"}

  /** `dict.get(key, default)`: a key that is present wins, even when it holds `null`. */
  function Get(data: Document, key: string, default: Value): (v: Value)
    ensures key in data ==> v == data[key]
    ensures key !in data ==> v == default
  {
    if key in data then data[key] else default
  }

  // ---------------------------------------------------------------------------
  // create_event
  // ---------------------------------------------------------------------------

  /** Why building the body fails: the request body is not a JSON object, so it has no `.get`. */
  datatype CreateError = AttributeError

  /** `{"dateTime": ..., "timeZone": "Asia/Kolkata"}`. */
  function TimeSlot(dateTime: Value): Value {
    Object(map["dateTime" := dateTime, "timeZone" := Text(TimeZone)])
  }

  /** The event `create_event` builds from the request body. */
  function CreateEventBody(data: Value): Result<Document, CreateError> {
    match data
    case Object(request) =>
      Ok(map[
        "summary" := Get(request, "summary", Text("Sample Event")),
        "location" := Get(request, "location", Text("")),
        "description" := Get(request, "description", Text("")),
        "start" := TimeSlot(Get(request, "start", Null)),
        "end" := TimeSlot(Get(request, "end", Null))])
    case _ => Err(AttributeError)
  }

  /**
   * The created event has exactly the five keys; each top-level field is the
   * request's value when the key is there and the default otherwise; start
   * and end carry the request's value (or `null`) and the fixed time zone.
   */
  lemma CreateEventFields(request: Document)
    ensures var r := CreateEventBody(Object(request));
      && r.Ok?
      && r.value.Keys == TopLevelKeys + TimeKeys
      && r.value["summary"] == (if "summary" in request then request["summary"] else Text("Sample Event"))
      && r.value["location"] == (if "location" in request then request["location"] else Text(""))
      && r.value["description"] == (if "description" in request then request["description"] else Text(""))
      && (forall k :: k in TimeKeys ==>
            && r.value[k].Object?
            && r.value[k].fields.Keys == {"dateTime", "timeZone"}
            && r.value[k].fields["dateTime"] == (if k in request then request[k] else Null)
            && r.value[k].fields["timeZone"] == Text(TimeZone))
  {
    var r := CreateEventBody(Object(request)).value;
    assert r.Keys == TopLevelKeys + TimeKeys;
  }

  /** Only a JSON object can be read with `.get`; any other body fails. */
  lemma CreateEventNeedsObject(data: Value)
    ensures CreateEventBody(data).Err? <==> !data.Object?
  {
  }

  // ---------------------------------------------------------------------------
  // update_event
  // ---------------------------------------------------------------------------

  /** The exceptions the patch can raise; the route answers each with status 400. */
  datatype PatchError = KeyError(key: string) | TypeError

  /** What `event[key]['dateTime'] = ...` raises, if anything. */
  function SlotError(event: Document, key: string): Option<PatchError> {
    if key !in event then Some(KeyError(key))
    else if !event[key].Object? then Some(TypeError)
    else None
  }

  /** The first exception the patch meets: the start slot is written before the end slot. */
  function PatchFailure(event: Document, request: Document): Option<PatchError> {
    if "start" in request && SlotError(event, "start").Some? then SlotError(event, "start")
    else if "end" in request && SlotError(event, "end").Some? then SlotError(event, "end")
    else None
  }

  /** The value a successful patch leaves under `key`. */
  function PatchedEntry(event: Document, request: Document, key: string): Value
    requires key in event || (key in request && key in TopLevelKeys)
    requires PatchFailure(event, request).None?
  {
    if key in TopLevelKeys && key in request then request[key]
    else if key in TimeKeys && key in request then
      Object(event[key].fields["dateTime" := request[key]])
    else event[key]
  }

  /**
   * The event after `update_event`'s patch, key by key. A string body is
   * searched for each key as a substring, and indexing it raises `TypeError`;
   * any other body that is not an object raises `TypeError` at the first test.
   */
  function Patched(event: Document, data: Value): Result<Document, PatchError> {
    match data
    case Null => Err(TypeError)
    case Text(s) =>
      if exists k :: k in TopLevelKeys + TimeKeys && Occurs(k, s) then Err(TypeError)
      else Ok(event)
    case Object(request) =>
      match PatchFailure(event, request)
      case Some(e) => Err(e)
      case None =>
        Ok(map k | k in event.Keys + (request.Keys * TopLevelKeys) :: PatchedEntry(event, request, k))
  }

  /**
   * The patch as the route applies it: five tests of the request, each
   * overwriting one field of the event in place, in the order of the source.
   */
  method ApplyPatch(event: Document, data: Value) returns (r: Result<Document, PatchError>)
    ensures r == Patched(event, data)
  {
    match data {
      case Null =>
        r := Err(TypeError);
      case Text(s) =>
        r := PatchWithText(event, s);
      case Object(request) =>
        r := PatchWithObject(event, request);
    }
  }

  /** A string body: `key in data` is a substring test, and `data[key]` on a string raises `TypeError`. */
  method PatchWithText(event: Document, s: string) returns (r: Result<Document, PatchError>)
    ensures r == Patched(event, Text(s))
  {
    if Occurs("summary", s) { return Err(TypeError); }
    if Occurs("location", s) { return Err(TypeError); }
    if Occurs("description", s) { return Err(TypeError); }
    if Occurs("start", s) { return Err(TypeError); }
    if Occurs("end", s) { return Err(TypeError); }
    r := Ok(event);
  }

  /** An object body: the five conditional assignments of the route. */
  method PatchWithObject(event: Document, request: Document) returns (r: Result<Document, PatchError>)
    ensures r == Patched(event, Object(request))
  {
    var e := WriteTopLevel(event, request);
    assert SlotError(e, "start") == SlotError(event, "start");
    assert SlotError(e, "end") == SlotError(event, "end");
    ghost var top := e;
    if "start" in request {
      var written := WriteSlot(e, "start", request["start"]);
      if written.Err? { return Err(written.error); }
      e := written.value;
    }
    ghost var started := e;
    assert SlotError(e, "end") == SlotError(event, "end");
    if "end" in request {
      var written := WriteSlot(e, "end", request["end"]);
      if written.Err? { return Err(written.error); }
      e := written.value;
    }
    assert started == SetSlot(top, "start", request);
    assert e == SetSlot(started, "end", request);
    SlotsPatched(event, request);
    r := Ok(e);
  }

  /** The first three statements of the patch: each present top-level key is copied over. */
  method WriteTopLevel(event: Document, request: Document) returns (e: Document)
    ensures e == TopLevelPatched(event, request)
  {
    e := event;
    if "summary" in request { e := e["summary" := request["summary"]]; }
    if "location" in request { e := e["location" := request["location"]]; }
    if "description" in request { e := e["description" := request["description"]]; }
  }

  /** `event[key]['dateTime'] = value`: fails without the key or when its value is not an object. */
  method WriteSlot(event: Document, key: string, value: Value) returns (r: Result<Document, PatchError>)
    ensures SlotError(event, key).Some? ==> r == Err(SlotError(event, key).value)
    ensures SlotError(event, key).None? ==>
      r == Ok(event[key := Object(event[key].fields["dateTime" := value])])
  {
    if key !in event {
      return Err(KeyError(key));
    }
    if !event[key].Object? {
      return Err(TypeError);
    }
    var slot := event[key].fields;
    slot := slot["dateTime" := value];
    r := Ok(event[key := Object(slot)]);
  }

  /** The event once the three top-level fields are written. */
  function TopLevelPatched(event: Document, request: Document): Document {
    map k | k in event.Keys + (request.Keys * TopLevelKeys) ::
      if k in TopLevelKeys && k in request then request[k] else event[k]
  }

  /** `event[key]['dateTime'] = request[key]` when the request has the key. */
  function SetSlot(d: Document, key: string, request: Document): Document
    requires key in request ==> key in d && d[key].Object?
  {
    if key in request then d[key := Object(d[key].fields["dateTime" := request[key]])] else d
  }

  /** Writing the top-level fields and then both slots gives the patched event key by key. */
  lemma SlotsPatched(event: Document, request: Document)
    requires PatchFailure(event, request).None?
    ensures var top := TopLevelPatched(event, request);
      var started := SetSlot(top, "start", request);
      SetSlot(started, "end", request)
        == map k | k in event.Keys + (request.Keys * TopLevelKeys) :: PatchedEntry(event, request, k)
  {
    var top := TopLevelPatched(event, request);
    var started := SetSlot(top, "start", request);
    var ended := SetSlot(started, "end", request);
    var expected := map k | k in event.Keys + (request.Keys * TopLevelKeys) :: PatchedEntry(event, request, k);
    assert ended.Keys == expected.Keys;
    forall k | k in ended
      ensures ended[k] == expected[k]
    {
    }
  }

  // ---------------------------------------------------------------------------
  // What the patch promises.
  // ---------------------------------------------------------------------------

  /**
   * A successful patch keeps every key of the event, adds only top-level
   * keys the request names, and leaves every key the request does not name
   * (and every key it cannot patch) exactly as it was.
   */
  lemma PatchKeepsOtherKeys(event: Document, request: Document)
    requires Patched(event, Object(request)).Ok?
    ensures var after := Patched(event, Object(request)).value;
      && after.Keys == event.Keys + (request.Keys * TopLevelKeys)
      && forall k :: k in event && (k !in request || k !in TopLevelKeys + TimeKeys) ==> after[k] == event[k]
  {
  }

  /**
   * Each top-level key the request names takes the request's value; each
   * slot it names gets the new `dateTime` while every other key of the slot,
   * `timeZone` included, keeps its value.
   */
  lemma PatchWritesNamedKeys(event: Document, request: Document)
    requires Patched(event, Object(request)).Ok?
    ensures var after := Patched(event, Object(request)).value;
      forall k :: k in request && k in TopLevelKeys ==> after[k] == request[k]
    ensures var after := Patched(event, Object(request)).value;
      forall k :: k in request && k in TimeKeys ==>
        && after[k].Object?
        && after[k].fields.Keys == event[k].fields.Keys + {"dateTime"}
        && after[k].fields["dateTime"] == request[k]
        && (forall inner :: inner in event[k].fields && inner != "dateTime" ==>
              after[k].fields[inner] == event[k].fields[inner])
  {
  }

  /** The patch fails exactly when the request names a slot the event lacks or holds as something other than an object. */
  lemma PatchFailsOnMissingSlot(event: Document, request: Document)
    ensures Patched(event, Object(request)).Err? <==>
      exists k :: k in TimeKeys && k in request && SlotError(event, k).Some?
  {
    if Patched(event, Object(request)).Err? {
      if "start" in request && SlotError(event, "start").Some? {
        assert "start" in TimeKeys;
      } else {
        assert "end" in TimeKeys;
      }
    }
  }

  /** An empty request leaves the event as it was. */
  lemma EmptyPatchIsIdentity(event: Document)
    ensures Patched(event, Object(map[])) == Ok(event)
  {
    var after := Patched(event, Object(map[])).value;
    assert after.Keys == event.Keys;
    assert after == event;
  }

  /** Applying the same request twice is the same as applying it once. */
  lemma PatchIdempotent(event: Document, request: Document)
    requires Patched(event, Object(request)).Ok?
    ensures var once := Patched(event, Object(request)).value;
      Patched(once, Object(request)) == Ok(once)
  {
    var once := Patched(event, Object(request)).value;
    assert PatchFailure(once, request).None?;
    var twice := Patched(once, Object(request)).value;
    assert twice.Keys == once.Keys;
    forall k | k in twice
      ensures twice[k] == once[k]
    {
      if k in TimeKeys && k in request {
        assert once[k].fields["dateTime" := request[k]] == once[k].fields;
      }
    }
    assert twice == once;
  }

  /** Patching the event an empty create would send gives the event the create sends for that request. */
  lemma PatchOfDefaultIsCreate(request: Document)
    ensures var blank := CreateEventBody(Object(map[])).value;
      Patched(blank, Object(request)) == Ok(CreateEventBody(Object(request)).value)
  {
    var blank := CreateEventBody(Object(map[])).value;
    var created := CreateEventBody(Object(request)).value;
    DefaultPatchedOf(request, blank, created);
  }

  lemma DefaultPatchedOf(request: Document, blank: Document, created: Document)
    requires blank == CreateEventBody(Object(map[])).value
    requires created == CreateEventBody(Object(request)).value
    ensures Patched(blank, Object(request)) == Ok(created)
  {
    DefaultShape(request, blank, created);
    var after := map k | k in blank.Keys + (request.Keys * TopLevelKeys) :: PatchedEntry(blank, request, k);
    forall k | k in after
      ensures after[k] == created[k]
    {
      DefaultEntry(request, blank, created, k);
    }
    assert after == created;
  }

  /** The default event has the five keys, every slot is an object, and the patch adds no key to it. */
  lemma DefaultShape(request: Document, blank: Document, created: Document)
    requires blank == CreateEventBody(Object(map[])).value
    requires created == CreateEventBody(Object(request)).value
    ensures PatchFailure(blank, request).None?
    ensures blank.Keys + (request.Keys * TopLevelKeys) == created.Keys
  {
    assert blank.Keys == TopLevelKeys + TimeKeys;
    assert created.Keys == TopLevelKeys + TimeKeys;
  }

  /** One key of `DefaultPatchedOf`. */
  lemma DefaultEntry(request: Document, blank: Document, created: Document, k: string)
    requires blank == CreateEventBody(Object(map[])).value
    requires created == CreateEventBody(Object(request)).value
    requires k in blank && PatchFailure(blank, request).None?
    ensures PatchedEntry(blank, request, k) == created[k]
  {
    if k in TimeKeys && k in request {
      var slot := PatchedEntry(blank, request, k);
      assert slot.fields == created[k].fields;
    }
  }
}
