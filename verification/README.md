# Webex card scripts: a Dafny model of their list logic

Three interactive Node.js scripts talk to the Webex REST API:

- `sendCard.js` lists the user's recent group rooms and the card files under
  `cards/`. The user picks a room and a file, and the script posts the file's
  JSON as an adaptive-card attachment. A room not yet among the favorites in
  `favorites.json` is then prepended to them and the file is rewritten.
- `findCards.js` collects the messages that carry attachments from the recent
  group rooms, tags each with its room's title, merges them and sorts them by
  `created`, ascending.
  The user picks one, and the content of its first attachment is copied.
- `findSpaces.js` lists the spaces whose title contains a search term,
  ignoring case, as `{name: title, value: id}` pairs.

The model keeps what these scripts compute between the API answers and the
prompts. API answers, the directory listing, the outcome of reading the card
file and the outcome of the POST are inputs. The user's pick is an input
limited to what the prompt offers.

Files:

- `webex.dfy` (module `Webex`): wire values shared by the scripts (rooms,
  messages, attachments, the POST body, list choices, a small JSON type) and
  `Array.prototype.find` over choices.
- `send_card.dfy` (module `SendCard`): the room and file choices, the payload,
  the favorites update, and `main` after the prompts. This is a step function
  `SendStep` plus the method `RunSend`, which updates a `Favorites` object in
  place.
- `find_cards.dfy` (module `FindCards`): filter and tag, the per-room fan-out
  and merge, the in-place stable sort, the choice labels and the selection.
- `find_spaces.dfy` (module `FindSpaces`): case-insensitive title search.

The model follows the code of the scripts, including where it differs from
what their descriptions suggest:

- `findCards` keeps a message when it has an `attachments` field at all, so an
  empty array is kept, not only a non-empty one.
- `sendCard` prepends a new favorite (`unshift`), never appends one. It
  updates the favorites even when the card file is not valid JSON. With a
  favorites list, it skips the update only when reading the file or the POST
  throws.
- The card is sent when the parsed value is truthy in JavaScript. A file
  holding `null`, `false`, `0` or `""` is therefore not sent, just like a file
  that does not parse.

The sort in `findCards.js` is `Array.prototype.sort` with a numeric comparator
on `created`. That sort is stable (ECMA-262, section 23.1.3.30), and every
stable sort by the same integer key gives the same list. The model therefore
specifies the result as a stable insertion sort (`SortByCreated`). It proves
that this result is ascending, is a permutation of its input, and keeps equal
timestamps in input order. An in-place insertion sort on an array
(`SortInPlace`) is proved to produce exactly that list.

## Model

| member | source | states |
|---|---|---|
| `SendCard.FindGroups` | sendCard.js:34-37 | one choice per API item, same length and order, entry i is `{name: items[i].title, value: items[i].id}` |
| `Webex.FirstWithValue` | sendCard.js:227-228 | `find` by value: None exactly when no entry has the value, otherwise the index of the first entry with it |
| `SendCard.RoomChoices` | sendCard.js:151-158 | with favorites: favorites, then one separator at index `|faves|`, then the rooms; without favorites: only the rooms, with no separator anywhere |
| `SendCard.OfferedValues` | sendCard.js:153-177 | the room prompt can return a value exactly when it belongs to a favorite or a listed room |
| `SendCard.CardFiles` | sendCard.js:204-209 | each file choice is a listing entry ending in ".json" or ".txt", with value "cards/" + name; never longer than the listing |
| `SendCard.CardFilesComplete` | sendCard.js:204-209 | every listing entry ending in ".json" or ".txt" is offered, with value "cards/" + name |
| `SendCard.CardFilesAppend` | sendCard.js:204-209 | the filter keeps listing order: it distributes over concatenation |
| `SendCard.CardPayload` | sendCard.js:57-66 | the body carries the room id, markdown "Card could not render" and exactly one attachment of type "application/vnd.microsoft.card.adaptive" whose content is the card unchanged |
| `SendCard.UpdateFavorites` | sendCard.js:227-235 | the favorites update: the file is rewritten exactly when no favorite has the chosen room id, and afterwards some favorite has it |
| `SendCard.RoomName` | sendCard.js:228 | `roomList.find(...).name`: the name of the first room-list entry whose value is the room id |
| `SendCard.UpdateFavoritesEffect` | sendCard.js:225-230 | the file is rewritten exactly when no favorite has the room id; then the list grows by one, the new entry at index 0 is `{name from the room list, value: roomId}` and the old list is the tail; otherwise nothing changes; afterwards the id is a favorite |
| `SendCard.UpdateFavoritesIdempotent` | sendCard.js:227-229 | a second update with the same room leaves the list unchanged and writes nothing |
| `SendCard.UpdateFavoritesKeepsUnique` | sendCard.js:227-229 | if favorite ids were unique, they stay unique |
| `SendCard.Favorites.constructor` | sendCard.js:190-197 | the favorites object starts from the loaded list |
| `SendCard.Favorites.AddIfAbsent` | sendCard.js:227-235 | in-place `unshift` of `{name, value: roomId}` exactly when the id is absent, reporting whether the file must be rewritten; otherwise the list is unchanged |
| `SendCard.SendOnlyParsedCard` | sendCard.js:215-223 | a POST is attempted exactly when the file parsed to a truthy value, and its body is always the full card payload of `sendAttachment` for that value and the chosen room, whether or not the POST then succeeds |
| `SendCard.InvalidCardStillUpdatesFavorites` | sendCard.js:215-235 | a file that is not JSON, or parses to a falsy value, is not sent, and the favorites update still runs |
| `SendCard.FailureSkipsFavorites` | sendCard.js:199-239 | when reading the file or the POST throws, the outer catch skips the favorites update and nothing is written |
| `SendCard.SendStep` | sendCard.js:212-239 | `main` after the prompts: when it writes, the room was not a favorite and the new list is `{name from the room list, value: roomId}` followed by the old list; when it does not write, the favorites are unchanged; whatever it posts goes to the chosen room, and nothing is posted after a failed read |
| `SendCard.SuccessfulSendUpdatesFavorites` | sendCard.js:215-235 | the normal run: a truthy card that posts successfully is sent as the adaptive-card payload, then the favorites update runs; the file is rewritten exactly when the room was not a favorite, and afterwards the room is one |
| `SendCard.SendStepKeepsFavorites` | sendCard.js:212-239 | for any favorites list, repeated ids included: after a run the old favorites are the tail of the new ones, and at most one entry is added, exactly when a write happens; if ids were unique, they stay unique |
| `SendCard.RunSend` | sendCard.js:212-239 | `main` after the prompts, mutating the favorites object: what it posts, the new favorites and the write flag are those of the step function `SendStep` |
| `FindCards.FindRooms` | findCards.js:33 | one `{id, title}` per item, same length and order |
| `FindCards.FindCardsIn` | findCards.js:64-66 | every kept message has an `attachments` field, comes unchanged from the room's listing and is tagged with the room's title |
| `FindCards.FindCardsInComplete` | findCards.js:64-66 | no message with an `attachments` field is dropped, an empty one included |
| `FindCards.FindCardsInAppend` | findCards.js:64-66 | the filter keeps the API's order: it distributes over concatenation |
| `FindCards.FanOut` | findCards.js:115-116 | one result per room, in room order; result i is room i's messages filtered and tagged with room i's title |
| `FindCards.FlattenLength` | findCards.js:118-120 | the merged list is as long as all per-room lists together |
| `FindCards.FlattenMember` | findCards.js:118-120 | a message is in the merged list exactly when it is in one of the per-room lists |
| `FindCards.Merge` | findCards.js:119-120 | the push loop yields the per-room lists concatenated in room order; an empty room list yields an empty card list |
| `FindCards.SortByCreated` | findCards.js:121 | sorting neither adds nor drops a message: the sorted list is as long as the merged list |
| `FindCards.SortByCreatedSorted` | findCards.js:121 | the sorted list is ascending by `created` |
| `FindCards.SortByCreatedPermutes` | findCards.js:121 | the sorted list is a permutation of the merged list |
| `FindCards.SortByCreatedStable` | findCards.js:121 | for every timestamp, the messages created at that instant keep their merge order |
| `FindCards.InsertLast` | findCards.js:121 | one pass of the in-place sort: the element at i moves into the sorted prefix as `InsertByCreated` places it; the rest of the array is untouched |
| `FindCards.SortInPlace` | findCards.js:121 | the array after the in-place sort holds exactly the stable sort of its old contents |
| `FindCards.Label` | findCards.js:124 | the label is `<created> by <personEmail> in <roomTitle>`: it opens with the timestamp as a canonical decimal (no leading zero, a minus sign only for negatives) that reads back to `created`, and the rest is exactly " by ", the sender's email, " in " and the room title |
| `FindCards.CardChoices` | findCards.js:122-127 | one choice per sorted message, same order, value the message id, name "<created> by <personEmail> in <roomTitle>" |
| `FindCards.DecimalRoundTrip` | findCards.js:124 | `${x.created}` writes the timestamp as a canonical decimal (no leading zero, a minus sign only for negatives) that reads back to `created` |
| `FindCards.FirstWithId` | findCards.js:139 | `find` by id: None exactly when no message has the id, otherwise the index of the first message with it |
| `FindCards.ChoicesSelect` | findCards.js:122-139 | every offered choice selects a message, never one later in the list than the choice itself |
| `FindCards.SelectCard` | findCards.js:139-140 | the first message with the chosen id yields the content of its first attachment when its attachments array is non-empty; otherwise the TypeError of `attachments[0].content` |
| `FindCards.PostedCardCopiedBack` | findCards.js:139-140 | a message carrying the attachments sendCard posts gives back the posted card unchanged |
| `FindCards.CollectCards` | findCards.js:112-127 | the card list is the stable sort of the merged per-room results; it is ascending by `created` and a permutation of the merged list; every card has attachments and the title of a room whose listing held it; no rooms give no cards; the choices match the cards one to one |
| `FindSpaces.LowerIdempotent` | findSpaces.js:78 | ASCII lower-casing is idempotent |
| `FindSpaces.IncludesAt` | findSpaces.js:84 | `includes` holds exactly when the pattern occurs at some index of the title |
| `FindSpaces.IncludesEmpty` | findSpaces.js:84 | every title includes the empty pattern |
| `FindSpaces.MatchingSpaces` | findSpaces.js:83-88 | every result is `{name: title, value: id}` of a listed room whose lower-cased title includes the pattern; never longer than the listing |
| `FindSpaces.SearchSpaces` | findSpaces.js:78-88 | the search never returns more rooms than listed, and every result's lower-cased title includes the lower-cased term |
| `FindSpaces.SearchSound` | findSpaces.js:78-88 | every result's lower-cased title contains the lower-cased term, and the result is the title and id of a listed room |
| `FindSpaces.SearchComplete` | findSpaces.js:83-88 | every room whose lower-cased title contains the lower-cased term is in the result |
| `FindSpaces.SearchAppend` | findSpaces.js:83-88 | the result keeps the API's order: the search distributes over concatenation |
| `FindSpaces.SearchEmptyTerm` | findSpaces.js:78-88 | an empty term returns every room, in order, as `{name: title, value: id}` |
| `FindSpaces.SearchIgnoresCase` | findSpaces.js:78 | terms that differ only in ASCII letter case give the same result |

## Left out

- HTTP requests and their error strings (`findGroups`, `sendAttachment`, `findRooms`, `findCards`, the rooms request in `mainFunc`). API answers are inputs. The POST's outcome is the boolean `postSucceeds`.
- `getToken`, `askPassword`, `askQuestions`'s prompts and the search prompts of `findSpaces.js`: the picks are inputs, limited to the values offered.
- File access: reading `favorites.json` (a missing or unparsable file is just an empty loaded list), `readdirSync`, `readFile` (its three outcomes are the input `CardLoad`), and the unawaited `writeFile`, which the model reduces to the `write` flag. The unlocked read-modify-write race between two runs is not modelled.
- `JSON.parse`, `JSON.stringify` and the clipboard write. Card content stays an uninterpreted `Json` value.
- `Promise.all`: concurrency and fail-fast are not modelled. Only the order-preserving join is.
- `created` is an integer key. The API sends ISO-8601 strings, so `a.created - b.created` is NaN, which the sort's comparison treats as +0 (ECMA-262, section 23.1.3.30.2, CompareArrayElements, called SortCompare in earlier editions). On such data every pair compares equal, and the stable sort keeps the merge order instead of sorting oldest first. The model covers the numeric comparison only.
- JavaScript numbers are floating point. The model's `Json` numbers are integers, so a card that is a fraction such as `0.5` (truthy) cannot be expressed, and the exponent form of very large numbers in `${x.created}` is not modelled.
- `toLowerCase` is modelled on ASCII letters only; Unicode case mapping is not modelled.
- A favorites.json that parses to something other than an array is not modelled. With an object such as `{}`, `faveList.length` is undefined, so only the rooms are offered. The card is sent, and then `favorites.find` throws into the outer catch, so the room is never remembered. With `null`, reading `.length` throws before anything is sent.
- A title that is not a string (a TypeError in `toLowerCase`) and an empty choice list given to a list prompt are not modelled.
- `FindCards.FindCardsIn`: does not state the count of kept messages directly. `FindCardsInComplete` and `FindCardsInAppend` pin the result down instead.
