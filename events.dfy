/**
 * The doorbell consumer's event dispatch: which handler a Smart Device
 * Management event reaches, which payloads are decoded, and whether a clip
 * preview is then downloaded.
 */
module Events {
  import opened Wrappers
  import opened Text

  const ChimeKey: string := "sdm.devices.events.DoorbellChime.Chime"
  const MotionKey: string := "sdm.devices.events.CameraMotion.Motion"
  const PersonKey: string := "sdm.devices.events.CameraPerson.Person"
  const ClipPreviewKey: string := "sdm.devices.events.CameraClipPreview.ClipPreview"

  /** The payload of a chime, motion or person event (the three Go structs have the same fields). */
  datatype SessionEvent = SessionEvent(eventSessionId: string, eventId: string)

  datatype ClipPreview = ClipPreview(eventSessionId: string, previewUrl: string)

  /**
   * A `json.RawMessage`, given by what `json.Unmarshal` makes of it for each
   * target type the dispatcher decodes into: a value or the decoder's error text.
   */
  datatype RawMessage = RawMessage(
    asSessionEvent: Result<SessionEvent, string>,
    asClipPreview: Result<ClipPreview, string>)

  datatype RelationUpdate = RelationUpdate(kind: string, subject: string, object: string)

  datatype ResourceUpdate = ResourceUpdate(
    name: string,
    traits: map<string, RawMessage>,
    events: map<string, RawMessage>)

  /** The Pub/Sub message body; the two updates are nil-able pointers in Go. */
  datatype DeviceEvent = DeviceEvent(
    eventId: string,
    timestamp: string,
    relationUpdate: Option<RelationUpdate>,
    resourceUpdate: Option<ResourceUpdate>,
    resourceGroup: seq<string>,
    eventThreadId: Option<string>,
    eventThreadState: Option<string>,
    userId: string)

  datatype Handler = ChimeHandler | MotionHandler | PersonHandler

  /** The event key that routes to each handler. */
  function PrimaryKey(h: Handler): string
  {
    match h
    case ChimeHandler => ChimeKey
    case MotionHandler => MotionKey
    case PersonHandler => PersonKey
  }

  /** Why `Process` returns an error of its own (not one from a download). */
  datatype Failure =
    | UnsupportedEvent(event: DeviceEvent)
    | DecodeFailed(cause: string)
    | UnsupportedResourceUpdate(userId: string, events: map<string, RawMessage>, traits: map<string, RawMessage>)

  /**
   * What processing decides before any I/O: either it returns (nil or an
   * error), or the chosen handler downloads the clip preview and returns
   * whatever the download returns.
   */
  datatype Step =
    | Finish(failure: Option<Failure>)
    | Download(handler: Handler, clip: ClipPreview)

  /** Lines 177-182: a clip preview key whose payload does not decode counts as absent. */
  function ClipPreviewOf(events: map<string, RawMessage>): Option<ClipPreview>
  {
    if ClipPreviewKey in events && events[ClipPreviewKey].asClipPreview.Ok? then
      Some(events[ClipPreviewKey].asClipPreview.value)
    else None
  }

  /**
   * One branch of `processResourceUpdateEvent` with the handler it calls:
   * decode the primary payload, look up the clip preview, and download it
   * if there is one.
   */
  function HandleSessionEvent(h: Handler, raw: RawMessage, events: map<string, RawMessage>): Step
  {
    match raw.asSessionEvent
    case Err(e) => Finish(Some(DecodeFailed(e)))
    case Ok(_) =>
      match ClipPreviewOf(events)
      case None => Finish(None)
      case Some(clip) => Download(h, clip)
  }

  /** `processResourceUpdateEvent`, up to the download. */
  function ProcessResourceUpdate(userId: string, update: ResourceUpdate): Step
  {
    var events := update.events;
    if ChimeKey in events then HandleSessionEvent(ChimeHandler, events[ChimeKey], events)
    else if MotionKey in events then HandleSessionEvent(MotionHandler, events[MotionKey], events)
    else if PersonKey in events then HandleSessionEvent(PersonHandler, events[PersonKey], events)
    else Finish(Some(UnsupportedResourceUpdate(userId, events, update.traits)))
  }

  /** `Process`, up to the download; `processRelationUpdateEvent` only logs. */
  function Process(e: DeviceEvent): Step
  {
    if e.resourceUpdate.Some? then ProcessResourceUpdate(e.userId, e.resourceUpdate.value)
    else if e.relationUpdate.Some? then Finish(None)
    else Finish(Some(UnsupportedEvent(e)))
  }

  // ---------------------------------------------------------------------
  // Reference definition of the routing
  // ---------------------------------------------------------------------

  /** The handler keys in the order they are tested. */
  const HandlerOrder: seq<Handler> := [ChimeHandler, MotionHandler, PersonHandler]

  /** `h` is at position `i` of `order`, and no key before it is present. */
  predicate FirstAt(events: map<string, RawMessage>, order: seq<Handler>, h: Handler, i: int)
  {
    0 <= i < |order| && order[i] == h && forall j :: 0 <= j < i ==> PrimaryKey(order[j]) !in events
  }

  /** The first handler in `order` whose key is present. */
  function FirstPresent(events: map<string, RawMessage>, order: seq<Handler>): (r: Option<Handler>)
    ensures r.Some? ==> r.value in order && PrimaryKey(r.value) in events
    ensures r.None? <==> forall k :: 0 <= k < |order| ==> PrimaryKey(order[k]) !in events
    ensures r.Some? ==> exists i :: FirstAt(events, order, r.value, i)
  {
    if |order| == 0 then None
    else if PrimaryKey(order[0]) in events then
      assert FirstAt(events, order, order[0], 0);
      Some(order[0])
    else
      var r := FirstPresent(events, order[1..]);
      if r.Some? then FirstAtTail(events, order, r.value); r else r
  }

  /** Past a first handler whose key is absent, a first position in the rest is one in `order`. */
  lemma FirstAtTail(events: map<string, RawMessage>, order: seq<Handler>, h: Handler)
    requires |order| > 0 && PrimaryKey(order[0]) !in events
    requires exists i :: FirstAt(events, order[1..], h, i)
    ensures exists i :: FirstAt(events, order, h, i)
  {
    var i :| FirstAt(events, order[1..], h, i);
    forall j | 0 <= j < i + 1
      ensures PrimaryKey(order[j]) !in events
    {
      if j > 0 { assert order[j] == order[1..][j - 1]; }
    }
    assert FirstAt(events, order, h, i + 1);
  }

  /**
   * The routing, restated by handler priority: the handler is the first in
   * `HandlerOrder` whose key is present; its payload decides between a
   * decode error and going on; then the clip preview, decoded or not,
   * decides between success and a download. Without any routable key the
   * error carries the event and trait maps.
   */
  lemma ResourceUpdateRouting(userId: string, update: ResourceUpdate)
    ensures var step := ProcessResourceUpdate(userId, update);
      match FirstPresent(update.events, HandlerOrder)
      case None =>
        step == Finish(Some(UnsupportedResourceUpdate(userId, update.events, update.traits)))
      case Some(h) =>
        var raw := update.events[PrimaryKey(h)];
        (raw.asSessionEvent.Err? ==> step == Finish(Some(DecodeFailed(raw.asSessionEvent.error))))
        && (raw.asSessionEvent.Ok? && ClipPreviewOf(update.events).None? ==> step == Finish(None))
        && (raw.asSessionEvent.Ok? && ClipPreviewOf(update.events).Some? ==>
              step == Download(h, ClipPreviewOf(update.events).value))
  {
    var events := update.events;
    assert FirstPresent(events, HandlerOrder[1..]) == FirstPresent(events, [MotionHandler, PersonHandler]);
    assert [MotionHandler, PersonHandler][1..] == [PersonHandler];
    assert [PersonHandler][1..] == [];
  }

  /**
   * Lines 171, 184, 197: once a key is chosen, every other routable key, the
   * trait map, the resource name and the user id are ignored; only the chosen
   * payload and the clip preview matter.
   */
  lemma ChosenKeyAloneDecides(user1: string, u1: ResourceUpdate, user2: string, u2: ResourceUpdate, h: Handler)
    requires FirstPresent(u1.events, HandlerOrder) == Some(h)
    requires FirstPresent(u2.events, HandlerOrder) == Some(h)
    requires u1.events[PrimaryKey(h)] == u2.events[PrimaryKey(h)]
    requires ClipPreviewOf(u1.events) == ClipPreviewOf(u2.events)
    ensures ProcessResourceUpdate(user1, u1) == ProcessResourceUpdate(user2, u2)
  {
    ResourceUpdateRouting(user1, u1);
    ResourceUpdateRouting(user2, u2);
  }

  /** Lines 171-172: a chime key shadows any motion or person key, whatever their payloads. */
  lemma ChimeShadowsOthers(userId: string, update: ResourceUpdate, motion: RawMessage, person: RawMessage)
    requires ChimeKey in update.events
    ensures var events := update.events[MotionKey := motion][PersonKey := person];
      ProcessResourceUpdate(userId, update.(events := events)) == ProcessResourceUpdate(userId, update)
  {
    var events := update.events[MotionKey := motion][PersonKey := person];
    assert ClipPreviewOf(events) == ClipPreviewOf(update.events);
  }

  /**
   * Lines 160-167: a resource update is processed whatever the relation
   * update; a relation update alone is a success without a download; an event
   * with neither is an error.
   */
  lemma ProcessDispatch(e: DeviceEvent, relation: Option<RelationUpdate>)
    ensures e.resourceUpdate.Some? ==> Process(e.(relationUpdate := relation)) == Process(e)
    ensures e.resourceUpdate.None? && e.relationUpdate.Some? ==> Process(e) == Finish(None)
    ensures e.resourceUpdate.None? && e.relationUpdate.None? ==> Process(e) == Finish(Some(UnsupportedEvent(e)))
  {}

  /** A download happens only for a routed event whose payload and clip preview both decode. */
  lemma DownloadOnlyWithClip(e: DeviceEvent)
    requires Process(e).Download?
    ensures e.resourceUpdate.Some?
    ensures var events := e.resourceUpdate.value.events;
      var h := Process(e).handler;
      FirstPresent(events, HandlerOrder) == Some(h)
      && events[PrimaryKey(h)].asSessionEvent.Ok?
      && ClipPreviewKey in events
      && events[ClipPreviewKey].asClipPreview == Ok(Process(e).clip)
  {
    ResourceUpdateRouting(e.userId, e.resourceUpdate.value);
  }

  // ---------------------------------------------------------------------
  // Error texts
  // ---------------------------------------------------------------------

  /** `DeviceEvent.format`. */
  function Format(e: DeviceEvent): string
  {
    "DeviceEvent\n\t* UserId: " + e.userId + "\n\t* EventId: " + e.eventId + "\n\t* Timestamp: " + e.timestamp
  }

  function UnsupportedEventText(e: DeviceEvent): string
  {
    "Unsupported event: " + Format(e)
  }

  /** Lines 211-218: the keys of a map, collected by ranging over it in no particular order. */
  method CollectKeys(m: map<string, RawMessage>) returns (keys: seq<string>)
    ensures forall k :: k in m <==> k in keys
    ensures |keys| == |m|
  {
    keys := [];
    var remaining := m.Keys;
    while remaining != {}
      invariant remaining <= m.Keys
      invariant forall k :: k in m <==> k in remaining || k in keys
      invariant forall k :: k in keys ==> k !in remaining
      invariant |keys| + |remaining| == |m|
      decreases |remaining|
    {
      var k :| k in remaining;
      keys := keys + [k];
      remaining := remaining - {k};
    }
  }

  /** Line 219: the error text, for the keys in the order they were collected. */
  function UnsupportedResourceUpdateMessage(userId: string, eventKeys: seq<string>, traitKeys: seq<string>): string
  {
    "unsupported resource update event:\n\t* user id(" + userId
      + ")\n\t* events(" + Join(eventKeys, ",")
      + ")\n\t* traits(" + Join(traitKeys, ",") + ")"
  }

  /** The message names the user and every collected key. */
  lemma MessageNamesKeys(userId: string, eventKeys: seq<string>, traitKeys: seq<string>)
    ensures var text := UnsupportedResourceUpdateMessage(userId, eventKeys, traitKeys);
      Contains(text, userId)
      && (forall i :: 0 <= i < |eventKeys| ==> Contains(text, eventKeys[i]))
      && (forall i :: 0 <= i < |traitKeys| ==> Contains(text, traitKeys[i]))
  {
    var head := "unsupported resource update event:\n\t* user id(" + userId;
    var events := ")\n\t* events(" + Join(eventKeys, ",");
    var traits := ")\n\t* traits(" + Join(traitKeys, ",");
    var text := UnsupportedResourceUpdateMessage(userId, eventKeys, traitKeys);
    assert text == head + events + traits + ")";
    PiecesContained(head, events, traits, ")");
    SuffixContained("unsupported resource update event:\n\t* user id(", userId);
    ContainsTransitive(text, head, userId);
    LabelledKeys(")\n\t* events(", eventKeys);
    LabelledKeys(")\n\t* traits(", traitKeys);
    forall i | 0 <= i < |eventKeys|
      ensures Contains(text, eventKeys[i])
    {
      ContainsTransitive(text, events, eventKeys[i]);
    }
    forall i | 0 <= i < |traitKeys|
      ensures Contains(text, traitKeys[i])
    {
      ContainsTransitive(text, traits, traitKeys[i]);
    }
  }

  /** A text ends with, so contains, its last piece. */
  lemma SuffixContained(tag: string, body: string)
    ensures Contains(tag + body, body)
  {
    assert (tag + body)[|tag|..|tag| + |body|] == body;
    assert OccursAt(tag + body, body, |tag|);
  }

  /** Every key of a labelled, comma-separated list occurs in it. */
  lemma LabelledKeys(tag: string, keys: seq<string>)
    ensures forall i :: 0 <= i < |keys| ==> Contains(tag + Join(keys, ","), keys[i])
  {
    var list := Join(keys, ",");
    SuffixContained(tag, list);
    forall i | 0 <= i < |keys|
      ensures Contains(tag + list, keys[i])
    {
      JoinContains(keys, ",", i);
      ContainsTransitive(tag + list, list, keys[i]);
    }
  }

  /**
   * Lines 211-219: the error of a resource update none of whose events is
   * routable names the user, every event key and every trait key.
   */
  method UnsupportedResourceUpdateText(userId: string, events: map<string, RawMessage>, traits: map<string, RawMessage>)
    returns (text: string)
    ensures Contains(text, userId)
    ensures forall k :: k in events ==> Contains(text, k)
    ensures forall k :: k in traits ==> Contains(text, k)
  {
    var eventKeys := CollectKeys(events);
    var traitKeys := CollectKeys(traits);
    text := UnsupportedResourceUpdateMessage(userId, eventKeys, traitKeys);
    MessageNamesKeys(userId, eventKeys, traitKeys);
    assert forall k :: k in events ==> exists i :: 0 <= i < |eventKeys| && eventKeys[i] == k;
    assert forall k :: k in traits ==> exists i :: 0 <= i < |traitKeys| && traitKeys[i] == k;
  }
}
