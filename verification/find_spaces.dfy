/**
 * findSpaces.js: list the spaces whose title contains a search term, ignoring
 * letter case, as `{name: title, value: id}` pairs ready for favorites.json.
 */
module FindSpaces {
  import opened Webex

  /** `toLowerCase` on one character, restricted to ASCII letters. */
  function LowerChar(c: char): (l: char)
    ensures 'A' <= c <= 'Z' ==> l as int == c as int + 32
    ensures !('A' <= c <= 'Z') ==> l == c
  {
    if 'A' <= c <= 'Z' then (c as int + 32) as char else c
  }

  function Lower(s: string): (r: string)
    ensures |r| == |s| && forall i :: 0 <= i < |s| ==> r[i] == LowerChar(s[i])
  {
    seq(|s|, i requires 0 <= i < |s| => LowerChar(s[i]))
  }

  /** Lower-casing twice changes nothing more. */
  lemma LowerIdempotent(s: string)
    ensures Lower(Lower(s)) == Lower(s)
  {
  }

  predicate StartsWith(s: string, prefix: string) {
    |prefix| <= |s| && s[..|prefix|] == prefix
  }

  /** `s.includes(pattern)`: some suffix of `s` starts with `pattern`. */
  predicate Includes(s: string, pattern: string)
    decreases |s|
  {
    StartsWith(s, pattern) || (|s| > 0 && Includes(s[1..], pattern))
  }

  /** `pattern` occurs in `s` starting at index `i`. */
  predicate OccursAt(s: string, pattern: string, i: int) {
    0 <= i <= |s| - |pattern| && s[i..i + |pattern|] == pattern
  }

  /** `Includes` holds exactly when `pattern` occurs at some position of `s`. */
  lemma {:induction false} IncludesAt(s: string, pattern: string)
    ensures Includes(s, pattern) <==> exists i :: OccursAt(s, pattern, i)
    decreases |s|
  {
    if StartsWith(s, pattern) {
      assert OccursAt(s, pattern, 0);
    }
    if |s| > 0 {
      IncludesAt(s[1..], pattern);
      if exists i :: OccursAt(s, pattern, i) {
        var i :| OccursAt(s, pattern, i);
        if i > 0 {
          assert s[1..][i - 1..i - 1 + |pattern|] == s[i..i + |pattern|];
          assert OccursAt(s[1..], pattern, i - 1);
        } else {
          assert StartsWith(s, pattern);
        }
      }
      if Includes(s[1..], pattern) {
        var i :| OccursAt(s[1..], pattern, i);
        assert s[i + 1..i + 1 + |pattern|] == s[1..][i..i + |pattern|];
        assert OccursAt(s, pattern, i + 1);
      }
    } else {
      if exists i :: OccursAt(s, pattern, i) {
        var i :| OccursAt(s, pattern, i);
        assert pattern == [] && StartsWith(s, pattern);
      }
    }
  }

  /** The empty pattern is in every title, as `"".includes` is always true. */
  lemma {:induction false} IncludesEmpty(s: string)
    ensures Includes(s, "")
  {
    assert s[..0] == "";
  }

  /**
   * `items.filter(e => e.title.toLowerCase().includes(pattern)).map(...)`, where
   * `pattern` is the search term already lower-cased.
   */
  function MatchingSpaces(items: seq<Room>, pattern: string): (r: seq<Choice>)
    ensures |r| <= |items|
    ensures forall c :: c in r ==> Includes(Lower(c.name), pattern)
    ensures forall c :: c in r ==> exists i :: 0 <= i < |items| && c == RoomChoice(items[i])
  {
    if items == [] then []
    else
      var head := if Includes(Lower(items[0].title), pattern) then [RoomChoice(items[0])] else [];
      var tail := MatchingSpaces(items[1..], pattern);
      assert forall c :: c in tail ==> exists i :: 0 <= i < |items| && c == RoomChoice(items[i]) by {
        forall c | c in tail
          ensures exists i :: 0 <= i < |items| && c == RoomChoice(items[i])
        {
          var i :| 0 <= i < |items[1..]| && c == RoomChoice(items[1..][i]);
          assert c == RoomChoice(items[i + 1]);
        }
      }
      head + tail
  }

  /** `mainFunc`: lower-case the search term once, then filter and map the rooms. */
  function SearchSpaces(items: seq<Room>, searchTerm: string): (r: seq<Choice>)
    ensures |r| <= |items|
    ensures forall c :: c in r ==> Includes(Lower(c.name), Lower(searchTerm))
  {
    MatchingSpaces(items, Lower(searchTerm))
  }

  /** Every result's lower-cased title contains the lower-cased term, and comes from a listed room. */
  lemma SearchSound(items: seq<Room>, searchTerm: string, c: Choice)
    requires c in SearchSpaces(items, searchTerm)
    ensures Includes(Lower(c.name), Lower(searchTerm))
    ensures exists i :: 0 <= i < |items| && c.name == items[i].title && c.value == items[i].id
  {
    var i :| 0 <= i < |items| && c == RoomChoice(items[i]);
  }

  /** Every room whose lower-cased title contains the lower-cased term is listed. */
  lemma {:induction false} SearchComplete(items: seq<Room>, searchTerm: string, room: Room)
    requires room in items && Includes(Lower(room.title), Lower(searchTerm))
    ensures Choice(room.title, room.id) in SearchSpaces(items, searchTerm)
  {
    if items[0] != room {
      SearchComplete(items[1..], searchTerm, room);
    }
  }

  /** The results keep the API's order: the search distributes over concatenation. */
  lemma {:induction false} SearchAppend(a: seq<Room>, b: seq<Room>, searchTerm: string)
    ensures SearchSpaces(a + b, searchTerm) == SearchSpaces(a, searchTerm) + SearchSpaces(b, searchTerm)
  {
    if a == [] {
      assert a + b == b;
    } else {
      assert (a + b)[1..] == a[1..] + b;
      SearchAppend(a[1..], b, searchTerm);
    }
  }

  /** An empty search term lists every room, in order. */
  lemma {:induction false} SearchEmptyTerm(items: seq<Room>)
    ensures var r := SearchSpaces(items, "");
      |r| == |items| && forall i :: 0 <= i < |items| ==> r[i] == Choice(items[i].title, items[i].id)
  {
    if items != [] {
      SearchEmptyTerm(items[1..]);
      IncludesEmpty(Lower(items[0].title));
      assert Lower("") == "";
    }
  }

  /** The two terms differ at most in the case of ASCII letters. */
  predicate SameUpToCase(a: string, b: string) {
    |a| == |b| && forall i :: 0 <= i < |a| ==> LowerChar(a[i]) == LowerChar(b[i])
  }

  /** Terms that differ only in letter case find the same spaces. */
  lemma SearchIgnoresCase(items: seq<Room>, a: string, b: string)
    requires SameUpToCase(a, b)
    ensures SearchSpaces(items, a) == SearchSpaces(items, b)
  {
    assert Lower(a) == Lower(b);
  }
}
