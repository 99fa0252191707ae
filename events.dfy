/**
 * What the popups hand to the editor's event manager. The event manager's
 * listener table is not part of this model: an `emit` is recorded in an
 * append-only log, in the order the calls are made.
 */
module Events {

  /** The data a `command` event carries to its command handler. */
  datatype Payload =
    | LinkPayload(linkText: string, url: string, openInNewWindow: bool)
    | ImagePayload(imageUrl: string, altText: string)

  /** One `emit(name, ...args)` call. */
  datatype Event =
    | CloseAllPopup
    | Command(name: string, payload: Payload)

  /** The editor's event manager, reduced to the record of what was emitted. */
  class EventManager {
    var log: seq<Event>

    constructor ()
      ensures log == []
    {
      log := [];
    }

    /** `emit(e)`: appends `e` to the log and changes nothing else. */
    method Emit(e: Event)
      modifies this
      ensures log == old(log) + [e]
    {
      log := log + [e];
    }
  }
}
