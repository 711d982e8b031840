/**
 * The values that the three scripts exchange with the Webex REST API and with
 * the interactive prompt: rooms, messages, adaptive-card payloads, and the
 * `{name, value}` choices shown in a list prompt.
 */
module Webex {

  datatype Option<+T> = None | Some(value: T)

  /** A JSON document, kept opaque: the scripts never look inside a card. */
  datatype Json =
    | JNull
    | JBool(b: bool)
    | JNumber(n: int)
    | JString(str: string)
    | JArray(elems: seq<Json>)
    | JObject(members: seq<(string, Json)>)

  /** JavaScript truthiness of a parsed JSON value, as tested by `if (card)`. */
  predicate Truthy(j: Json) {
    match j
    case JNull => false
    case JBool(b) => b
    case JNumber(n) => n != 0
    case JString(s) => s != ""
    case JArray(_) => true
    case JObject(_) => true
  }

  /** An item of `GET /v1/rooms`: the two fields the scripts read. */
  datatype Room = Room(id: string, title: string)

  /** A list-prompt choice: `name` is shown, `value` is what the prompt returns. */
  datatype Choice = Choice(name: string, value: string)

  /** The choice every script builds from a room: its title shown, its id returned. */
  function RoomChoice(room: Room): (c: Choice)
    ensures c.name == room.title && c.value == room.id
  {
    Choice(room.title, room.id)
  }

  datatype Attachment = Attachment(contentType: string, content: Json)

  const AdaptiveCardType := "application/vnd.microsoft.card.adaptive"

  /** An item of `GET /v1/messages`; `attachments` is None when the field is absent. */
  datatype Message = Message(id: string, created: int, personEmail: string, attachments: Option<seq<Attachment>>)

  /** The body of `POST /v1/messages`. */
  datatype Payload = Payload(roomId: string, markdown: string, attachments: seq<Attachment>)

  predicate HasValue(s: seq<Choice>, v: string) {
    exists i :: 0 <= i < |s| && s[i].value == v
  }

  /**
   * `s.find(c => c.value === v)`: the index of the first choice whose value is
   * `v`, or None when there is none (where `find` returns `undefined`).
   */
  function FirstWithValue(s: seq<Choice>, v: string): (r: Option<nat>)
    ensures r.None? <==> !HasValue(s, v)
    ensures r.Some? ==> r.value < |s| && s[r.value].value == v
    ensures r.Some? ==> forall k :: 0 <= k < r.value ==> s[k].value != v
  {
    if s == [] then None
    else if s[0].value == v then Some(0)
    else
      match FirstWithValue(s[1..], v)
      case None => None
      case Some(i) => Some(i + 1)
  }
}
