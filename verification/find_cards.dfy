/**
 * findCards.js: look through the recent group rooms for messages that carry
 * attachments, merge them and sort them by `created`, ascending, let the user
 * pick one, and copy the content of its first attachment.
 */
module FindCards {
  import opened Webex
  import SendCard

  // ---------------------------------------------------------------------------
  // findRooms and findCards
  // ---------------------------------------------------------------------------

  /** The `{id, title}` that `findRooms` keeps of each room. */
  datatype RoomRef = RoomRef(id: string, title: string)

  /** `items.map(x => ({id: x.id, title: x.title}))`. */
  function FindRooms(items: seq<Room>): (r: seq<RoomRef>)
    ensures |r| == |items|
    ensures forall i :: 0 <= i < |items| ==> r[i].id == items[i].id && r[i].title == items[i].title
  {
    seq(|items|, i requires 0 <= i < |items| => RoomRef(items[i].id, items[i].title))
  }

  /** A message from the API spread into a new object with `roomTitle` added. */
  datatype CardMessage = CardMessage(msg: Message, roomTitle: string)

  /**
   * `findCards`: keep the messages that own an `attachments` field, even an
   * empty one, and tag each with the title of the room it came from.
   */
  function FindCardsIn(items: seq<Message>, roomTitle: string): (r: seq<CardMessage>)
    ensures |r| <= |items|
    ensures forall c :: c in r ==> c.roomTitle == roomTitle && c.msg in items && c.msg.attachments.Some?
  {
    if items == [] then []
    else
      var head := if items[0].attachments.Some? then [CardMessage(items[0], roomTitle)] else [];
      head + FindCardsIn(items[1..], roomTitle)
  }

  /** No message with an `attachments` field is dropped. */
  lemma {:induction false} FindCardsInComplete(items: seq<Message>, roomTitle: string, m: Message)
    requires m in items && m.attachments.Some?
    ensures CardMessage(m, roomTitle) in FindCardsIn(items, roomTitle)
  {
    if items[0] != m {
      FindCardsInComplete(items[1..], roomTitle, m);
    }
  }

  /** The filter keeps the API's order: it distributes over concatenation. */
  lemma {:induction false} FindCardsInAppend(a: seq<Message>, b: seq<Message>, roomTitle: string)
    ensures FindCardsIn(a + b, roomTitle) == FindCardsIn(a, roomTitle) + FindCardsIn(b, roomTitle)
  {
    if a == [] {
      assert a + b == b;
    } else {
      assert (a + b)[1..] == a[1..] + b;
      FindCardsInAppend(a[1..], b, roomTitle);
    }
  }

  // ---------------------------------------------------------------------------
  // main: fan out over the rooms and merge
  // ---------------------------------------------------------------------------

  /**
   * `Promise.all(rooms.map(x => findCards(token, x.id, x.title)))`; `listings[i]`
   * is the API's answer for `rooms[i]`, and results keep the rooms' order.
   */
  function FanOut(rooms: seq<RoomRef>, listings: seq<seq<Message>>): (r: seq<seq<CardMessage>>)
    requires |listings| == |rooms|
    ensures |r| == |rooms|
    ensures forall i :: 0 <= i < |rooms| ==> r[i] == FindCardsIn(listings[i], rooms[i].title)
  {
    seq(|rooms|, i requires 0 <= i < |rooms| => FindCardsIn(listings[i], rooms[i].title))
  }

  /** The per-room lists joined in order. */
  function Flatten(lists: seq<seq<CardMessage>>): seq<CardMessage> {
    if lists == [] then [] else Flatten(lists[..|lists| - 1]) + lists[|lists| - 1]
  }

  function TotalLength(lists: seq<seq<CardMessage>>): nat {
    if lists == [] then 0 else TotalLength(lists[..|lists| - 1]) + |lists[|lists| - 1]|
  }

  /** The merged list is as long as all per-room lists together. */
  lemma {:induction false} FlattenLength(lists: seq<seq<CardMessage>>)
    ensures |Flatten(lists)| == TotalLength(lists)
  {
    if lists != [] {
      FlattenLength(lists[..|lists| - 1]);
    }
  }

  /** A message is in the merged list exactly when it is in one of the per-room lists. */
  lemma {:induction false} FlattenMember(lists: seq<seq<CardMessage>>, c: CardMessage)
    ensures c in Flatten(lists) <==> exists i :: 0 <= i < |lists| && c in lists[i]
  {
    if lists != [] {
      var init := lists[..|lists| - 1];
      var last := |lists| - 1;
      FlattenMember(init, c);
      assert Flatten(lists) == Flatten(init) + lists[last];
      if c in Flatten(lists) {
        if c !in lists[last] {
          var i :| 0 <= i < |init| && c in init[i];
          assert lists[i] == init[i];
        }
      } else {
        forall i | 0 <= i < |lists|
          ensures c !in lists[i]
        {
          if i < last {
            assert lists[i] == init[i];
          }
        }
      }
    }
  }

  /** `results.forEach(x => cardList.push(...x))`. */
  method Merge(results: seq<seq<CardMessage>>) returns (cardList: seq<CardMessage>)
    ensures cardList == Flatten(results)
    ensures |cardList| == TotalLength(results)
    ensures results == [] ==> cardList == []
  {
    cardList := [];
    var k := 0;
    while k < |results|
      invariant 0 <= k <= |results|
      invariant cardList == Flatten(results[..k])
    {
      assert results[..k + 1][..k] == results[..k];
      cardList := cardList + results[k];
      k := k + 1;
    }
    assert results[..k] == results;
    FlattenLength(results);
  }

  // ---------------------------------------------------------------------------
  // cardList.sort((a, b) => a.created - b.created)
  // ---------------------------------------------------------------------------

  predicate SortedByCreated(s: seq<CardMessage>) {
    forall i, j :: 0 <= i < j < |s| ==> s[i].msg.created <= s[j].msg.created
  }

  /** Insert `x` after every element whose `created` is not larger than its own. */
  function InsertByCreated(s: seq<CardMessage>, x: CardMessage): (r: seq<CardMessage>)
    ensures |r| == |s| + 1
  {
    if s == [] || s[|s| - 1].msg.created <= x.msg.created then s + [x]
    else InsertByCreated(s[..|s| - 1], x) + [s[|s| - 1]]
  }

  /** Inserting adds exactly `x` to the elements. */
  lemma {:induction false} InsertPermutes(s: seq<CardMessage>, x: CardMessage)
    ensures multiset(InsertByCreated(s, x)) == multiset(s) + multiset{x}
  {
    if s != [] && s[|s| - 1].msg.created > x.msg.created {
      InsertPermutes(s[..|s| - 1], x);
      assert s == s[..|s| - 1] + [s[|s| - 1]];
    }
  }

  /**
   * The list a stable sort by `created` produces. Sorting is stable since
   * ECMAScript 2019 (section 23.1.3.30 of ECMA-262), and every stable sort of
   * the same list by the same integer key gives this same list.
   */
  function SortByCreated(s: seq<CardMessage>): (r: seq<CardMessage>)
    ensures |r| == |s|
  {
    if s == [] then [] else InsertByCreated(SortByCreated(s[..|s| - 1]), s[|s| - 1])
  }

  lemma {:induction false} InsertKeepsSorted(s: seq<CardMessage>, x: CardMessage)
    requires SortedByCreated(s)
    ensures SortedByCreated(InsertByCreated(s, x))
  {
    if s != [] && s[|s| - 1].msg.created > x.msg.created {
      var init := s[..|s| - 1];
      var last := s[|s| - 1];
      InsertKeepsSorted(init, x);
      var ins := InsertByCreated(init, x);
      InsertPermutes(init, x);
      forall k | 0 <= k < |ins|
        ensures ins[k].msg.created <= last.msg.created
      {
        assert ins[k] in multiset(init) + multiset{x};
        if ins[k] in init {
          var m :| 0 <= m < |init| && init[m] == ins[k];
          assert s[m] == init[m];
        }
      }
    }
  }

  /** The sorted list is ascending by `created`. */
  lemma {:induction false} SortByCreatedSorted(s: seq<CardMessage>)
    ensures SortedByCreated(SortByCreated(s))
  {
    if s != [] {
      SortByCreatedSorted(s[..|s| - 1]);
      InsertKeepsSorted(SortByCreated(s[..|s| - 1]), s[|s| - 1]);
    }
  }

  /** The sorted list is a permutation of the merged list. */
  lemma {:induction false} SortByCreatedPermutes(s: seq<CardMessage>)
    ensures multiset(SortByCreated(s)) == multiset(s)
  {
    if s != [] {
      SortByCreatedPermutes(s[..|s| - 1]);
      InsertPermutes(SortByCreated(s[..|s| - 1]), s[|s| - 1]);
      assert s == s[..|s| - 1] + [s[|s| - 1]];
    }
  }

  /** The messages created at instant `t`, in list order. */
  function CreatedAt(s: seq<CardMessage>, t: int): seq<CardMessage> {
    if s == [] then []
    else CreatedAt(s[..|s| - 1], t) + (if s[|s| - 1].msg.created == t then [s[|s| - 1]] else [])
  }

  /** Appending one message extends the messages at `t` by that message when it was created at `t`. */
  lemma CreatedAtSnoc(s: seq<CardMessage>, y: CardMessage, t: int)
    ensures CreatedAt(s + [y], t) == CreatedAt(s, t) + (if y.msg.created == t then [y] else [])
  {
  }

  lemma {:induction false} InsertCreatedAt(s: seq<CardMessage>, x: CardMessage, t: int)
    ensures CreatedAt(InsertByCreated(s, x), t) == CreatedAt(s, t) + (if x.msg.created == t then [x] else [])
  {
    if s == [] || s[|s| - 1].msg.created <= x.msg.created {
      CreatedAtSnoc(s, x, t);
    } else {
      var init := s[..|s| - 1];
      var last := s[|s| - 1];
      var ins := InsertByCreated(init, x);
      InsertCreatedAt(init, x, t);
      CreatedAtSnoc(ins, last, t);
      assert s == init + [last];
      CreatedAtSnoc(init, last, t);
      // `last` is later than `x`, so at most one of the two is created at `t`.
      if x.msg.created == t {
        assert CreatedAt(s, t) == CreatedAt(init, t);
      } else {
        assert CreatedAt(ins, t) == CreatedAt(init, t);
      }
    }
  }

  /** Stability: the messages sharing one `created` value keep their merge order. */
  lemma {:induction false} SortByCreatedStable(s: seq<CardMessage>, t: int)
    ensures CreatedAt(SortByCreated(s), t) == CreatedAt(s, t)
  {
    if s != [] {
      SortByCreatedStable(s[..|s| - 1], t);
      InsertCreatedAt(SortByCreated(s[..|s| - 1]), s[|s| - 1], t);
    }
  }

  /**
   * `x` lands right after the last element not later than it, when every
   * element from `j` on is later than `x` and the one before `j` is not.
   */
  lemma {:induction false} InsertSplit(sorted: seq<CardMessage>, x: CardMessage, j: nat)
    requires j <= |sorted|
    requires j > 0 ==> sorted[j - 1].msg.created <= x.msg.created
    requires forall k :: j <= k < |sorted| ==> sorted[k].msg.created > x.msg.created
    ensures InsertByCreated(sorted, x) == sorted[..j] + [x] + sorted[j..]
    decreases |sorted|
  {
    if j < |sorted| {
      var init := sorted[..|sorted| - 1];
      var last := sorted[|sorted| - 1];
      assert last.msg.created > x.msg.created;
      assert InsertByCreated(sorted, x) == InsertByCreated(init, x) + [last];
      assert forall k :: j <= k < |init| ==> init[k] == sorted[k];
      assert j > 0 ==> init[j - 1] == sorted[j - 1];
      InsertSplit(init, x, j);
      assert init[..j] == sorted[..j];
      assert sorted[j..] == init[j..] + [last];
    } else {
      assert sorted[..j] == sorted && sorted[j..] == [];
    }
  }

  /** Sorting one more element inserts it into the sorted prefix. */
  lemma SortStep(input: seq<CardMessage>, i: nat)
    requires i < |input|
    ensures SortByCreated(input[..i + 1]) == InsertByCreated(SortByCreated(input[..i]), input[i])
  {
    assert input[..i + 1][..i] == input[..i];
  }

  /**
   * The array after the shifting loop, read as a sequence: the sorted prefix
   * with `x` inserted, followed by the untouched rest.
   */
  lemma ShiftedContents(s: seq<CardMessage>, sorted: seq<CardMessage>, rest: seq<CardMessage>, x: CardMessage, j: nat)
    requires j <= |sorted| && |s| == |sorted| + 1 + |rest|
    requires forall k :: 0 <= k < j ==> s[k] == sorted[k]
    requires s[j] == x
    requires forall k :: j < k <= |sorted| ==> s[k] == sorted[k - 1]
    requires forall k :: |sorted| < k < |s| ==> s[k] == rest[k - |sorted| - 1]
    requires j > 0 ==> sorted[j - 1].msg.created <= x.msg.created
    requires forall k :: j <= k < |sorted| ==> sorted[k].msg.created > x.msg.created
    ensures s == InsertByCreated(sorted, x) + rest
  {
    InsertSplit(sorted, x, j);
    assert s == sorted[..j] + [x] + sorted[j..] + rest;
  }

  /**
   * Moves `a[i]` left past the larger elements of the sorted prefix `a[..i]`.
   * The ghost parameters name the array's three parts before the call.
   */
  method InsertLast(a: array<CardMessage>, i: nat, ghost sorted: seq<CardMessage>, ghost x: CardMessage,
                    ghost rest: seq<CardMessage>)
    requires |sorted| == i && a[..] == sorted + [x] + rest
    modifies a
    ensures a[..] == InsertByCreated(sorted, x) + rest
  {
    assert a[i] == x;
    assert forall k :: 0 <= k < i ==> a[k] == sorted[k];
    assert forall k :: i < k < a.Length ==> a[k] == rest[k - i - 1];
    var y := a[i];
    var j := i;
    while j > 0 && a[j - 1].msg.created > y.msg.created
      invariant 0 <= j <= i
      invariant forall k :: 0 <= k < j ==> a[k] == sorted[k]
      invariant forall k :: j < k <= i ==> a[k] == sorted[k - 1]
      invariant forall k :: i < k < a.Length ==> a[k] == rest[k - i - 1]
      invariant forall k :: j <= k < i ==> sorted[k].msg.created > x.msg.created
    {
      a[j] := a[j - 1];
      j := j - 1;
    }
    a[j] := y;
    ShiftedContents(a[..], sorted, rest, x, j);
  }

  /** Cutting the head off the unsorted part. */
  lemma SplitHead(done: seq<CardMessage>, input: seq<CardMessage>, i: nat)
    requires i < |input|
    ensures done + input[i..] == done + [input[i]] + input[i + 1..]
  {
  }

  /** The in-place sort, as an insertion sort on the array. */
  method SortInPlace(a: array<CardMessage>)
    modifies a
    ensures a[..] == SortByCreated(old(a[..]))
  {
    ghost var input := a[..];
    ghost var done: seq<CardMessage> := [];
    var i := 0;
    assert input[..0] == [] && input[0..] == input;
    while i < a.Length
      invariant 0 <= i <= a.Length
      invariant done == SortByCreated(input[..i]) && |done| == i
      invariant a[..] == done + input[i..]
    {
      SplitHead(done, input, i);
      InsertLast(a, i, done, input[i], input[i + 1..]);
      SortStep(input, i);
      done := InsertByCreated(done, input[i]);
      i := i + 1;
    }
    assert input[..a.Length] == input;
  }

  // ---------------------------------------------------------------------------
  // The choices shown to the user
  // ---------------------------------------------------------------------------

  function DigitChar(d: nat): (c: char)
    requires d < 10
    ensures '0' <= c <= '9' && c as int - '0' as int == d
  {
    (d + '0' as int) as char
  }

  predicate IsDigits(s: string) {
    forall i :: 0 <= i < |s| ==> '0' <= s[i] <= '9'
  }

  /** Decimal digits of `n`, as a template literal writes an integral number. */
  function NatDecimal(n: nat): (s: string)
    ensures |s| > 0 && IsDigits(s)
    ensures s[0] == '0' ==> n == 0
    ensures |s| > 1 ==> s[0] != '0'
  {
    if n < 10 then [DigitChar(n)] else NatDecimal(n / 10) + [DigitChar(n % 10)]
  }

  function ParseNat(s: string): nat
    requires IsDigits(s)
  {
    if s == [] then 0 else ParseNat(s[..|s| - 1]) * 10 + (s[|s| - 1] as int - '0' as int)
  }

  /** The digits of a timestamp read back to the same timestamp. */
  lemma {:induction false} NatDecimalRoundTrip(n: nat)
    ensures ParseNat(NatDecimal(n)) == n
  {
    if n >= 10 {
      NatDecimalRoundTrip(n / 10);
      var s := NatDecimal(n);
      assert s[..|s| - 1] == NatDecimal(n / 10);
    }
  }

  function Decimal(n: int): string {
    if n < 0 then "-" + NatDecimal(-n) else NatDecimal(n)
  }

  function ParseDecimal(s: string): int
    requires |s| > 0 && (if s[0] == '-' then IsDigits(s[1..]) else IsDigits(s))
  {
    if s[0] == '-' then 0 - ParseNat(s[1..]) else ParseNat(s)
  }

  /**
   * `s` is how a template literal writes the integer `n`: a minus sign only for
   * a negative number, then digits with no leading zero, reading back to `n`.
   */
  predicate IsDecimalOf(s: string, n: int) {
    && |s| > 0
    && (s[0] == '-' <==> n < 0)
    && var d := if s[0] == '-' then s[1..] else s;
       && |d| > 0 && IsDigits(d) && (|d| > 1 ==> d[0] != '0')
       && ParseDecimal(s) == n
  }

  /** `${x.created}` loses nothing: the label's timestamp is canonical and reads back to `created`. */
  lemma DecimalRoundTrip(n: int)
    ensures IsDecimalOf(Decimal(n), n)
  {
    var s := Decimal(n);
    if n < 0 {
      var d := NatDecimal(-n);
      NatDecimalRoundTrip(-n);
      assert s == "-" + d && s[1..] == d;
      assert ParseDecimal(s) == 0 - ParseNat(d);
    } else {
      var d := NatDecimal(n);
      NatDecimalRoundTrip(n);
      assert s == d && '0' <= d[0] <= '9';
    }
  }

  /**
   * `r` reads `<created> by <email> in <title>`, with the timestamp written the
   * way a template literal writes the integer `created`.
   */
  predicate IsLabel(r: string, created: int, email: string, title: string) {
    var n := |Decimal(created)|;
    && n <= |r|
    && IsDecimalOf(r[..n], created)
    && r[n..] == " by " + email + " in " + title
  }

  /** `${x.created} by ${x.personEmail} in ${x.roomTitle}`. */
  function Label(c: CardMessage): (r: string)
    ensures IsLabel(r, c.msg.created, c.msg.personEmail, c.roomTitle)
  {
    LabelParts(c.msg.created, c.msg.personEmail, c.roomTitle);
    Decimal(c.msg.created) + " by " + c.msg.personEmail + " in " + c.roomTitle
  }

  /** The timestamp, then the rest of the template. */
  lemma LabelParts(created: int, email: string, title: string)
    ensures IsLabel(Decimal(created) + " by " + email + " in " + title, created, email, title)
  {
    var d := Decimal(created);
    var tail := " by " + email + " in " + title;
    DecimalRoundTrip(created);
    assert d + " by " + email + " in " + title == d + tail;
    assert (d + tail)[..|d|] == d && (d + tail)[|d|..] == tail;
  }

  /** One choice per sorted message, in the same order, returning the message id. */
  function CardChoices(cards: seq<CardMessage>): (r: seq<Choice>)
    ensures |r| == |cards|
    ensures forall i :: 0 <= i < |cards| ==> r[i].value == cards[i].msg.id && r[i].name == Label(cards[i])
  {
    seq(|cards|, i requires 0 <= i < |cards| => Choice(Label(cards[i]), cards[i].msg.id))
  }

  // ---------------------------------------------------------------------------
  // The selected card
  // ---------------------------------------------------------------------------

  predicate HasId(cards: seq<CardMessage>, id: string) {
    exists i :: 0 <= i < |cards| && cards[i].msg.id == id
  }

  /** `cardList.find(x => x.id === id)`, as the index of the message found. */
  function FirstWithId(cards: seq<CardMessage>, id: string): (r: Option<nat>)
    ensures r.None? <==> !HasId(cards, id)
    ensures r.Some? ==> r.value < |cards| && cards[r.value].msg.id == id
    ensures r.Some? ==> forall k :: 0 <= k < r.value ==> cards[k].msg.id != id
  {
    if cards == [] then None
    else if cards[0].msg.id == id then Some(0)
    else
      match FirstWithId(cards[1..], id)
      case None => None
      case Some(i) => Some(i + 1)
  }

  /** Every choice offered selects a message, never one later than the choice itself. */
  lemma ChoicesSelect(cards: seq<CardMessage>, i: nat)
    requires i < |cards|
    ensures var id := CardChoices(cards)[i].value;
      HasId(cards, id) && FirstWithId(cards, id).value <= i
  {
    var id := CardChoices(cards)[i].value;
    assert cards[i].msg.id == id;
  }

  /** What `.attachments[0].content` yields: the card, or the TypeError of an empty or absent array. */
  datatype Selection = Copied(card: Json) | NoAttachment

  /** The content of the first attachment of the first message with the chosen id. */
  function SelectCard(cards: seq<CardMessage>, messageId: string): (r: Selection)
    requires HasId(cards, messageId)
    ensures var m := cards[FirstWithId(cards, messageId).value].msg;
      && (r.Copied? <==> m.attachments.Some? && |m.attachments.value| > 0)
      && (r.Copied? ==> r.card == m.attachments.value[0].content)
  {
    var m := cards[FirstWithId(cards, messageId).value].msg;
    if m.attachments.Some? && |m.attachments.value| > 0 then Copied(m.attachments.value[0].content)
    else NoAttachment
  }

  /** A card posted by sendCard is copied back unchanged from its message. */
  lemma PostedCardCopiedBack(cards: seq<CardMessage>, messageId: string, roomId: string, card: Json)
    requires HasId(cards, messageId)
    requires cards[FirstWithId(cards, messageId).value].msg.attachments
             == Some(SendCard.CardPayload(roomId, card).attachments)
    ensures SelectCard(cards, messageId) == Copied(card)
  {
  }

  // ---------------------------------------------------------------------------
  // main, between the API answers and the prompt
  // ---------------------------------------------------------------------------

  /**
   * From the rooms and each room's messages to the sorted card list and the
   * choices offered: merged in room order, then sorted in place.
   */
  method CollectCards(rooms: seq<RoomRef>, listings: seq<seq<Message>>)
    returns (cards: seq<CardMessage>, choices: seq<Choice>)
    requires |listings| == |rooms|
    ensures cards == SortByCreated(Flatten(FanOut(rooms, listings)))
    ensures SortedByCreated(cards)
    ensures multiset(cards) == multiset(Flatten(FanOut(rooms, listings)))
    ensures forall c :: c in cards ==>
              && c.msg.attachments.Some?
              && exists i :: 0 <= i < |rooms| && c.roomTitle == rooms[i].title && c.msg in listings[i]
    ensures rooms == [] ==> cards == []
    ensures |choices| == |cards|
    ensures forall i :: 0 <= i < |cards| ==> choices[i].value == cards[i].msg.id && choices[i].name == Label(cards[i])
  {
    var results := FanOut(rooms, listings);
    var merged := Merge(results);
    var a := new CardMessage[|merged|](k requires 0 <= k < |merged| => merged[k]);
    assert a[..] == merged;
    SortInPlace(a);
    cards := a[..];
    choices := CardChoices(cards);
    SortByCreatedSorted(merged);
    SortByCreatedPermutes(merged);
    forall c | c in cards
      ensures c.msg.attachments.Some?
      ensures exists i :: 0 <= i < |rooms| && c.roomTitle == rooms[i].title && c.msg in listings[i]
    {
      assert c in multiset(merged);
      FlattenMember(results, c);
      var i :| 0 <= i < |results| && c in results[i];
      assert c in FindCardsIn(listings[i], rooms[i].title);
    }
  }
}
