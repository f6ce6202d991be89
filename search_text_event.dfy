/**
 * The payload of the toolbar's "search text changed" event: an immutable
 * value holding the view tag and timestamp of the base event and the new
 * text, emitted to the JavaScript side as a one-entry map.
 */
module SearchTextEvents {
  import opened Wrappers

  /** The registration name of the event. */
  const EVENT_NAME: string := "topSearchText"

  /** The only key of the payload map. */
  const TEXT_KEY: string := "text"

  /** A text-change event; `text` is nullable as the Java field is. */
  datatype SearchTextEvent = SearchTextEvent(viewTag: int, timestampMs: int, text: Option<string>)

  /** One call of the emitter's receiveEvent(tag, name, payload). */
  datatype Emission = Emission(viewTag: int, eventName: string, payload: map<string, Option<string>>)

  /** The constructor: view id and timestamp go to the base event, the text is kept as given. */
  function Create(viewId: int, timestampMs: int, text: Option<string>): (e: SearchTextEvent)
    ensures e.viewTag == viewId && e.timestampMs == timestampMs
    ensures e.text == text
  {
    SearchTextEvent(viewId, timestampMs, text)
  }

  /** Every text event is registered under the same name. */
  function EventName(e: SearchTextEvent): (name: string)
    ensures name == "topSearchText"
  {
    EVENT_NAME
  }

  /** Text events are never merged with one another by the dispatcher. */
  function CanCoalesce(e: SearchTextEvent): (can: bool)
    ensures !can
  {
    false
  }

  /** What the event hands to the emitter: its view tag, its name and a map with the single key "text". */
  function Dispatch(e: SearchTextEvent): (em: Emission)
    ensures em.viewTag == e.viewTag
    ensures em.eventName == EventName(e)
    ensures em.payload.Keys == {TEXT_KEY}
    ensures TEXT_KEY in em.payload && em.payload[TEXT_KEY] == e.text
  {
    Emission(e.viewTag, EventName(e), map[TEXT_KEY := e.text])
  }

  /**
   * Reads the text back out of an emitted payload (None when the key is
   * missing). The toolbar has no such reader; this one exists so that
   * DispatchRoundTrip can state what a receiver finds.
   */
  function ReceivedText(em: Emission): (t: Option<Option<string>>)
    ensures t.Some? <==> TEXT_KEY in em.payload
    ensures t.Some? ==> t.value == em.payload[TEXT_KEY]
  {
    if TEXT_KEY in em.payload then Some(em.payload[TEXT_KEY]) else None
  }

  /** The text given to the constructor is exactly what the receiver reads from the dispatched payload. */
  lemma DispatchRoundTrip(viewId: int, timestampMs: int, text: Option<string>)
    ensures Dispatch(Create(viewId, timestampMs, text)).viewTag == viewId
    ensures Dispatch(Create(viewId, timestampMs, text)).eventName == EVENT_NAME
    ensures ReceivedText(Dispatch(Create(viewId, timestampMs, text))) == Some(text)
  {
  }
}
