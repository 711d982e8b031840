/**
 * sendCard.js: list recent group rooms and local card files, let the user
 * pick one of each, post the card to the room, and remember the room in the
 * favorites list when it was not there yet.
 */
module SendCard {
  import opened Webex

  // ---------------------------------------------------------------------------
  // findGroups: rooms API items -> room choices
  // ---------------------------------------------------------------------------

  /** Builds the room list with a `forEach`/`push` loop over the API items. */
  method FindGroups(items: seq<Room>) returns (rooms: seq<Choice>)
    ensures |rooms| == |items|
    ensures forall i :: 0 <= i < |items| ==> rooms[i].name == items[i].title && rooms[i].value == items[i].id
  {
    rooms := [];
    var k := 0;
    while k < |items|
      invariant 0 <= k <= |items|
      invariant |rooms| == k
      invariant forall i :: 0 <= i < k ==> rooms[i] == RoomChoice(items[i])
    {
      rooms := rooms + [RoomChoice(items[k])];
      k := k + 1;
    }
  }

  // ---------------------------------------------------------------------------
  // askQuestions: the room choices offered to the user
  // ---------------------------------------------------------------------------

  /** An entry of the room prompt: a selectable choice or the inquirer separator. */
  datatype RoomEntry = Entry(choice: Choice) | Separator

  function Entries(s: seq<Choice>): (r: seq<RoomEntry>)
    ensures |r| == |s| && forall i :: 0 <= i < |s| ==> r[i] == Entry(s[i])
  {
    if s == [] then [] else [Entry(s[0])] + Entries(s[1..])
  }

  /** Favorites first, then a separator, then the rooms; no separator without favorites. */
  function RoomChoices(faves: seq<Choice>, rooms: seq<Choice>): (r: seq<RoomEntry>)
    ensures |r| == |faves| + |rooms| + (if |faves| > 0 then 1 else 0)
    ensures forall i :: 0 <= i < |faves| ==> r[i] == Entry(faves[i])
    ensures forall i :: 0 <= i < |r| ==> (r[i].Separator? <==> |faves| > 0 && i == |faves|)
    ensures forall k :: |r| - |rooms| <= k < |r| ==> r[k] == Entry(rooms[k - (|r| - |rooms|)])
  {
    if |faves| > 0 then Entries(faves) + [Separator] + Entries(rooms) else Entries(rooms)
  }

  /** The prompt can return `v`: some selectable entry carries it. */
  predicate Offered(entries: seq<RoomEntry>, v: string) {
    exists i :: 0 <= i < |entries| && entries[i].Entry? && entries[i].choice.value == v
  }

  /** The values the room prompt can return are exactly the favorites' and the rooms'. */
  lemma OfferedValues(faves: seq<Choice>, rooms: seq<Choice>, v: string)
    ensures Offered(RoomChoices(faves, rooms), v) <==> HasValue(faves, v) || HasValue(rooms, v)
  {
    if Offered(RoomChoices(faves, rooms), v) {
      OfferedComesFromLists(faves, rooms, v);
    }
    if HasValue(faves, v) || HasValue(rooms, v) {
      ListsAreOffered(faves, rooms, v);
    }
  }

  lemma OfferedComesFromLists(faves: seq<Choice>, rooms: seq<Choice>, v: string)
    requires Offered(RoomChoices(faves, rooms), v)
    ensures HasValue(faves, v) || HasValue(rooms, v)
  {
    var r := RoomChoices(faves, rooms);
    var i :| 0 <= i < |r| && r[i].Entry? && r[i].choice.value == v;
    var skip := |r| - |rooms|;
    if i < |faves| {
      assert r[i] == Entry(faves[i]);
      assert faves[i].value == v;
    } else {
      assert skip <= i by {
        assert !r[i].Separator?;
      }
      assert r[i] == Entry(rooms[i - skip]);
      assert rooms[i - skip].value == v;
    }
  }

  lemma ListsAreOffered(faves: seq<Choice>, rooms: seq<Choice>, v: string)
    requires HasValue(faves, v) || HasValue(rooms, v)
    ensures Offered(RoomChoices(faves, rooms), v)
  {
    var r := RoomChoices(faves, rooms);
    if HasValue(faves, v) {
      var i :| 0 <= i < |faves| && faves[i].value == v;
      assert r[i] == Entry(faves[i]);
    } else {
      var j :| 0 <= j < |rooms| && rooms[j].value == v;
      var skip := if |faves| > 0 then |faves| + 1 else 0;
      assert r[skip + j] == Entry(rooms[j]);
      assert r[skip + j].Entry? && r[skip + j].choice.value == v;
    }
  }

  // ---------------------------------------------------------------------------
  // The card files found under cards/
  // ---------------------------------------------------------------------------

  predicate EndsWith(s: string, suffix: string) {
    |suffix| <= |s| && s[|s| - |suffix|..] == suffix
  }

  predicate IsCardFile(fileName: string) {
    EndsWith(fileName, ".json") || EndsWith(fileName, ".txt")
  }

  const CardDir := "cards/"

  /** `readdirSync('cards/').filter(...).map(...)`: the listing reduced to card files. */
  function CardFiles(listing: seq<string>): (r: seq<Choice>)
    ensures |r| <= |listing|
    ensures forall c :: c in r ==> c.name in listing && IsCardFile(c.name) && c.value == CardDir + c.name
  {
    if listing == [] then []
    else
      var head := if IsCardFile(listing[0]) then [Choice(listing[0], CardDir + listing[0])] else [];
      head + CardFiles(listing[1..])
  }

  /** Every card file of the listing is offered, with its path under cards/. */
  lemma {:induction false} CardFilesComplete(listing: seq<string>, fileName: string)
    requires fileName in listing && IsCardFile(fileName)
    ensures Choice(fileName, CardDir + fileName) in CardFiles(listing)
  {
    if listing[0] != fileName {
      CardFilesComplete(listing[1..], fileName);
    }
  }

  /** The filter keeps listing order: it distributes over concatenation. */
  lemma {:induction false} CardFilesAppend(a: seq<string>, b: seq<string>)
    ensures CardFiles(a + b) == CardFiles(a) + CardFiles(b)
  {
    if a != [] {
      assert (a + b)[1..] == a[1..] + b;
      CardFilesAppend(a[1..], b);
    } else {
      assert a + b == b;
    }
  }

  // ---------------------------------------------------------------------------
  // sendAttachment: the message payload
  // ---------------------------------------------------------------------------

  const FallbackMarkdown := "Card could not render"

  /** The POST body: the room, the fallback text, and the card as its one attachment. */
  function CardPayload(roomId: string, card: Json): (p: Payload)
    ensures p.roomId == roomId && p.markdown == FallbackMarkdown
    ensures |p.attachments| == 1
    ensures p.attachments[0].contentType == AdaptiveCardType && p.attachments[0].content == card
  {
    Payload(roomId, FallbackMarkdown, [Attachment(AdaptiveCardType, card)])
  }

  // ---------------------------------------------------------------------------
  // The favorites list
  // ---------------------------------------------------------------------------

  /** No two favorites name the same room. */
  predicate UniqueValues(s: seq<Choice>) {
    forall i, j :: 0 <= i < j < |s| ==> s[i].value != s[j].value
  }

  /** The name shown for `roomId` in the room list: `roomList.find(...).name`. */
  function RoomName(roomList: seq<Choice>, roomId: string): (r: string)
    requires HasValue(roomList, roomId)
    ensures exists i :: 0 <= i < |roomList| && roomList[i].value == roomId && roomList[i].name == r
                        && forall k :: 0 <= k < i ==> roomList[k].value != roomId
  {
    var i := FirstWithValue(roomList, roomId).value;
    roomList[i].name
  }

  /**
   * The favorites update of `main`: when no favorite has the chosen room id,
   * prepend `{name, value: roomId}` with the name taken from the room list and
   * ask for the file to be rewritten. The chosen id comes from the prompt, so it
   * is a favorite or a listed room.
   */
  function UpdateFavorites(favorites: seq<Choice>, roomList: seq<Choice>, roomId: string): (r: (seq<Choice>, bool))
    requires HasValue(favorites, roomId) || HasValue(roomList, roomId)
    ensures r.1 <==> !HasValue(favorites, roomId)
    ensures HasValue(r.0, roomId)
  {
    if FirstWithValue(favorites, roomId).Some? then (favorites, false)
    else
      var updated := [Choice(RoomName(roomList, roomId), roomId)] + favorites;
      assert updated[0].value == roomId;
      (updated, true)
  }

  /** What the update does: either nothing, or one new entry at the front with the tail intact. */
  lemma UpdateFavoritesEffect(favorites: seq<Choice>, roomList: seq<Choice>, roomId: string)
    requires HasValue(favorites, roomId) || HasValue(roomList, roomId)
    ensures var (updated, write) := UpdateFavorites(favorites, roomList, roomId);
      && (write <==> !HasValue(favorites, roomId))
      && (!write ==> updated == favorites)
      && (write ==> |updated| == |favorites| + 1 && updated[1..] == favorites)
      && (write ==> updated[0].value == roomId && updated[0].name == RoomName(roomList, roomId))
      && HasValue(updated, roomId)
  {
    var (updated, write) := UpdateFavorites(favorites, roomList, roomId);
    if write {
      assert updated[0].value == roomId;
    }
  }

  /** Running the update twice is the same as running it once; the second run writes nothing. */
  lemma UpdateFavoritesIdempotent(favorites: seq<Choice>, roomList: seq<Choice>, roomId: string)
    requires HasValue(favorites, roomId) || HasValue(roomList, roomId)
    ensures var once := UpdateFavorites(favorites, roomList, roomId).0;
      HasValue(once, roomId) && UpdateFavorites(once, roomList, roomId) == (once, false)
  {
    UpdateFavoritesEffect(favorites, roomList, roomId);
  }

  /** The update keeps the favorites' ids unique. */
  lemma UpdateFavoritesKeepsUnique(favorites: seq<Choice>, roomList: seq<Choice>, roomId: string)
    requires HasValue(favorites, roomId) || HasValue(roomList, roomId)
    requires UniqueValues(favorites)
    ensures UniqueValues(UpdateFavorites(favorites, roomList, roomId).0)
  {
    var (updated, write) := UpdateFavorites(favorites, roomList, roomId);
    if write {
      forall i, j | 0 <= i < j < |updated|
        ensures updated[i].value != updated[j].value
      {
        if i == 0 {
          assert updated[j] == favorites[j - 1];
        } else {
          assert updated[i] == favorites[i - 1] && updated[j] == favorites[j - 1];
        }
      }
    }
  }

  /** The favorites list that `main` reads from favorites.json and mutates in place. */
  class Favorites {
    var entries: seq<Choice>

    /** Loaded favorites; a missing or unparsable file gives the empty list. */
    constructor (loaded: seq<Choice>)
      ensures entries == loaded
    {
      entries := loaded;
    }

    /** The `find`, then `unshift` in place; `write` says whether favorites.json is rewritten. */
    method AddIfAbsent(roomList: seq<Choice>, roomId: string) returns (write: bool)
      requires HasValue(entries, roomId) || HasValue(roomList, roomId)
      modifies this
      ensures (entries, write) == UpdateFavorites(old(entries), roomList, roomId)
      ensures write <==> !HasValue(old(entries), roomId)
      ensures write ==> entries == [Choice(RoomName(roomList, roomId), roomId)] + old(entries)
      ensures !write ==> entries == old(entries)
    {
      write := false;
      if FirstWithValue(entries, roomId).None? {
        var index := FirstWithValue(roomList, roomId).value;
        var roomName := roomList[index].name;
        entries := [Choice(roomName, roomId)] + entries;
        write := true;
      }
    }
  }

  // ---------------------------------------------------------------------------
  // main, after the prompts
  // ---------------------------------------------------------------------------

  /**
   * What `readJsonFile` gives back: a read error rejects its promise, a file
   * that is not JSON resolves to null, otherwise the parsed document.
   */
  datatype CardLoad = ReadFailed | NotJson | Parsed(value: Json)

  /** The value `card` holds in `main` once the read has resolved. */
  function LoadedCard(load: CardLoad): Json
    requires !load.ReadFailed?
  {
    if load.Parsed? then load.value else JNull
  }

  /** One run of `main` from the user's pick to the end: what is posted, the new favorites, whether to rewrite them. */
  datatype SendOutcome = SendOutcome(posted: Option<Payload>, favorites: seq<Choice>, write: bool)

  /**
   * `main` after the prompts. A read error or a rejected POST throws to the
   * outer catch, which skips the favorites update. A card that is not JSON or
   * is falsy is not posted, and the favorites update still runs.
   */
  function SendStep(favorites: seq<Choice>, roomList: seq<Choice>, roomId: string,
                    load: CardLoad, postSucceeds: bool): (r: SendOutcome)
    requires HasValue(favorites, roomId) || HasValue(roomList, roomId)
    ensures r.write ==> !HasValue(favorites, roomId)
                        && r.favorites == [Choice(RoomName(roomList, roomId), roomId)] + favorites
    ensures !r.write ==> r.favorites == favorites
    ensures r.posted.Some? ==> !load.ReadFailed? && r.posted.value.roomId == roomId
  {
    if load.ReadFailed? then SendOutcome(None, favorites, false)
    else
      var card := LoadedCard(load);
      var posted := if Truthy(card) then Some(CardPayload(roomId, card)) else None;
      if posted.Some? && !postSucceeds then SendOutcome(posted, favorites, false)
      else
        var (updated, write) := UpdateFavorites(favorites, roomList, roomId);
        SendOutcome(posted, updated, write)
  }

  /** A POST happens exactly when the file parsed to a truthy document, and it carries that document to the chosen room. */
  lemma SendOnlyParsedCard(favorites: seq<Choice>, roomList: seq<Choice>, roomId: string,
                           load: CardLoad, postSucceeds: bool)
    requires HasValue(favorites, roomId) || HasValue(roomList, roomId)
    ensures var r := SendStep(favorites, roomList, roomId, load, postSucceeds);
      && (r.posted.Some? <==> load.Parsed? && Truthy(load.value))
      && (r.posted.Some? ==> r.posted.value == CardPayload(roomId, load.value))
  {
  }

  /** An unusable card is not sent, yet the room is still remembered. */
  lemma InvalidCardStillUpdatesFavorites(favorites: seq<Choice>, roomList: seq<Choice>, roomId: string,
                                         load: CardLoad, postSucceeds: bool)
    requires HasValue(favorites, roomId) || HasValue(roomList, roomId)
    requires load == NotJson || (load.Parsed? && !Truthy(load.value))
    ensures var r := SendStep(favorites, roomList, roomId, load, postSucceeds);
      && r.posted == None
      && (r.favorites, r.write) == UpdateFavorites(favorites, roomList, roomId)
      && HasValue(r.favorites, roomId)
      && (r.write <==> !HasValue(favorites, roomId))
  {
    UpdateFavoritesEffect(favorites, roomList, roomId);
  }

  /** A failed read or a failed POST leaves the favorites alone and writes nothing. */
  lemma FailureSkipsFavorites(favorites: seq<Choice>, roomList: seq<Choice>, roomId: string,
                              load: CardLoad, postSucceeds: bool)
    requires HasValue(favorites, roomId) || HasValue(roomList, roomId)
    requires load.ReadFailed? || (load.Parsed? && Truthy(load.value) && !postSucceeds)
    ensures var r := SendStep(favorites, roomList, roomId, load, postSucceeds);
      r.favorites == favorites && !r.write
  {
  }

  /** The normal run: a usable card is posted to the chosen room and the room is then remembered. */
  lemma SuccessfulSendUpdatesFavorites(favorites: seq<Choice>, roomList: seq<Choice>, roomId: string, card: Json)
    requires HasValue(favorites, roomId) || HasValue(roomList, roomId)
    requires Truthy(card)
    ensures var r := SendStep(favorites, roomList, roomId, Parsed(card), true);
      && r.posted == Some(CardPayload(roomId, card))
      && (r.favorites, r.write) == UpdateFavorites(favorites, roomList, roomId)
      && HasValue(r.favorites, roomId)
      && (r.write <==> !HasValue(favorites, roomId))
  {
  }

  /** Whatever happens, the old favorites survive as the tail, and unique ids stay unique. */
  lemma SendStepKeepsFavorites(favorites: seq<Choice>, roomList: seq<Choice>, roomId: string,
                               load: CardLoad, postSucceeds: bool)
    requires HasValue(favorites, roomId) || HasValue(roomList, roomId)
    ensures var r := SendStep(favorites, roomList, roomId, load, postSucceeds);
      && (UniqueValues(favorites) ==> UniqueValues(r.favorites))
      && |r.favorites| - |favorites| == (if r.write then 1 else 0)
      && r.favorites[|r.favorites| - |favorites|..] == favorites
  {
    var r := SendStep(favorites, roomList, roomId, load, postSucceeds);
    if load.ReadFailed? || (Truthy(LoadedCard(load)) && !postSucceeds) {
      assert r.favorites == favorites && !r.write;
      assert favorites[0..] == favorites;
    } else {
      var (updated, write) := UpdateFavorites(favorites, roomList, roomId);
      assert r.favorites == updated && r.write == write;
      UpdateFavoritesEffect(favorites, roomList, roomId);
      if UniqueValues(favorites) {
        UpdateFavoritesKeepsUnique(favorites, roomList, roomId);
      }
      if !write {
        assert updated[0..] == updated;
      }
    }
  }

  /**
   * `main` on the favorites object: post when the card is usable, then update
   * the favorites in place unless the read or the POST threw.
   */
  method RunSend(favorites: Favorites, roomList: seq<Choice>, roomId: string,
                 load: CardLoad, postSucceeds: bool) returns (posted: Option<Payload>, write: bool)
    requires HasValue(favorites.entries, roomId) || HasValue(roomList, roomId)
    modifies favorites
    ensures SendOutcome(posted, favorites.entries, write)
            == SendStep(old(favorites.entries), roomList, roomId, load, postSucceeds)
  {
    posted, write := None, false;
    if load.ReadFailed? {
      return;
    }
    var card := LoadedCard(load);
    if Truthy(card) {
      posted := Some(CardPayload(roomId, card));
      if !postSucceeds {
        return;
      }
    }
    write := favorites.AddIfAbsent(roomList, roomId);
  }
}
