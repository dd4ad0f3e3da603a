/**
 * SpotUpdateEvent: one sensor reading, built from the MQTT topic
 * "parking/raw/spot/<spotId>" and the raw payload ("occupied" or "free").
 */
module SpotUpdate {
  import opened Wrappers

  /** The immutable event; the getters are the fields. */
  datatype SpotUpdateEvent = SpotUpdateEvent(spotId: string, status: string, timestamp: int)

  /** What `of` can run into: String.split leaving no part (a topic of slashes only). */
  datatype Error = IndexOutOfBounds

  const Separator: char := '/'

  /** Every piece between separators, empty pieces included: one more than the separators. */
  function Segments(s: string): (parts: seq<string>)
    ensures |parts| >= 1
  {
    if |s| == 0 then [[]]
    else
      var rest := Segments(s[1..]);
      if s[0] == Separator then [[]] + rest else [[s[0]] + rest[0]] + rest[1..]
  }

  /** The pieces put back together, a separator between neighbours. */
  function Join(parts: seq<string>): string
    requires |parts| >= 1
  {
    if |parts| == 1 then parts[0] else parts[0] + [Separator] + Join(parts[1..])
  }

  /** No piece of a split holds a separator, and joining the pieces gives the text back. */
  lemma {:induction false} JoinSegments(s: string)
    ensures forall i :: 0 <= i < |Segments(s)| ==> Separator !in Segments(s)[i]
    ensures Join(Segments(s)) == s
  {
    if |s| > 0 {
      var rest := Segments(s[1..]);
      JoinSegments(s[1..]);
      if s[0] == Separator {
        assert Segments(s)[1..] == rest;
      } else {
        var parts := Segments(s);
        assert parts[0] == [s[0]] + rest[0];
        assert parts[1..] == rest[1..];
        if |rest| > 1 {
          assert Join(rest) == rest[0] + [Separator] + Join(rest[1..]);
        }
        assert s == [s[0]] + s[1..];
      }
    }
  }

  /** A text without separators is a single piece. */
  lemma {:induction false} SegmentsWithoutSeparator(s: string)
    requires Separator !in s
    ensures Segments(s) == [s]
  {
    if |s| > 0 {
      SegmentsWithoutSeparator(s[1..]);
      assert s == [s[0]] + s[1..];
    }
  }

  /** String.split's removal of trailing empty strings. */
  function DropTrailingEmpty(parts: seq<string>): (r: seq<string>)
    ensures |r| <= |parts| && r == parts[..|r|]
    ensures |r| > 0 ==> r[|r| - 1] != ""
    ensures forall i :: |r| <= i < |parts| ==> parts[i] == ""
  {
    if |parts| > 0 && parts[|parts| - 1] == "" then DropTrailingEmpty(parts[..|parts| - 1]) else parts
  }

  /** topic.split("/"): the whole text when there is no separator, else the pieces without trailing empty ones. */
  function Split(s: string): seq<string>
  {
    if Separator !in s then [s] else DropTrailingEmpty(Segments(s))
  }

  /** SpotUpdateEvent.of(topic, status) at clock reading `now`: the last part of the topic names the spot. */
  function Of(topic: string, status: string, now: int): Result<SpotUpdateEvent, Error>
  {
    var parts := Split(topic);
    if |parts| == 0 then Failure(IndexOutOfBounds)
    else Success(SpotUpdateEvent(parts[|parts| - 1], status, now))
  }

  /** Without a separator the whole topic is the spot id. */
  lemma OfWithoutSeparator(topic: string, status: string, now: int)
    requires Separator !in topic
    ensures Of(topic, status, now) == Success(SpotUpdateEvent(topic, status, now))
  {
  }

  lemma {:induction false} SegmentsAppend(prefix: string, last: string)
    requires Separator !in last
    ensures Segments(prefix + [Separator] + last) == Segments(prefix) + [last]
  {
    var s := prefix + [Separator] + last;
    if |prefix| == 0 {
      assert s[1..] == last;
      SegmentsWithoutSeparator(last);
    } else {
      assert s[0] == prefix[0];
      assert s[1..] == prefix[1..] + [Separator] + last;
      SegmentsAppend(prefix[1..], last);
      var rest := Segments(prefix[1..]);
      if prefix[0] != Separator {
        assert (rest + [last])[1..] == rest[1..] + [last];
      }
    }
  }

  /**
   * A topic "<prefix>/<id>" with a non-empty, separator-free id yields that id,
   * with the status kept verbatim (even when it is neither "occupied" nor "free")
   * and the clock reading as timestamp.
   */
  lemma OfLastSegment(prefix: string, id: string, status: string, now: int)
    requires id != [] && Separator !in id
    ensures Of(prefix + [Separator] + id, status, now) == Success(SpotUpdateEvent(id, status, now))
  {
    var topic := prefix + [Separator] + id;
    assert topic[|prefix|] == Separator;
    SegmentsAppend(prefix, id);
  }

  lemma {:induction false} AllEmptySegments(s: string)
    ensures (forall i :: 0 <= i < |Segments(s)| ==> Segments(s)[i] == []) <==> (forall i :: 0 <= i < |s| ==> s[i] == Separator)
  {
    if |s| > 0 {
      var parts := Segments(s);
      var tail := s[1..];
      AllEmptySegments(tail);
      if s[0] == Separator {
        var rest := Segments(tail);
        assert parts == [[]] + rest;
        assert (forall i :: 0 <= i < |rest| ==> rest[i] == []) <==> (forall i :: 0 <= i < |parts| ==> parts[i] == []) by {
          if forall i :: 0 <= i < |rest| ==> rest[i] == [] {
            forall i | 0 <= i < |parts| ensures parts[i] == [] {
              if i > 0 {
                assert parts[i] == rest[i - 1];
              }
            }
          }
          if forall i :: 0 <= i < |parts| ==> parts[i] == [] {
            forall i | 0 <= i < |rest| ensures rest[i] == [] {
              assert rest[i] == parts[i + 1];
            }
          }
        }
        assert (forall i :: 0 <= i < |tail| ==> tail[i] == Separator) <==> (forall i :: 0 <= i < |s| ==> s[i] == Separator) by {
          if forall i :: 0 <= i < |tail| ==> tail[i] == Separator {
            forall i | 0 <= i < |s| ensures s[i] == Separator {
              if i > 0 {
                assert s[i] == tail[i - 1];
              }
            }
          }
          if forall i :: 0 <= i < |s| ==> s[i] == Separator {
            forall i | 0 <= i < |tail| ensures tail[i] == Separator {
              assert tail[i] == s[i + 1];
            }
          }
        }
      } else {
        assert parts[0] != [];
      }
    }
  }

  /** `of` fails exactly on a non-empty topic made only of separators, and never yields an id with a separator. */
  lemma OfOutcome(topic: string, status: string, now: int)
    ensures Of(topic, status, now).Failure? <==> |topic| > 0 && forall i :: 0 <= i < |topic| ==> topic[i] == Separator
    ensures Of(topic, status, now).Success? ==>
      && Separator !in Of(topic, status, now).value.spotId
      && Of(topic, status, now).value.status == status
      && Of(topic, status, now).value.timestamp == now
  {
    if Separator in topic {
      var parts := Segments(topic);
      var r := DropTrailingEmpty(parts);
      JoinSegments(topic);
      AllEmptySegments(topic);
      if |r| == 0 {
        assert forall i :: 0 <= i < |parts| ==> parts[i] == [];
        assert |topic| > 0;
      } else {
        assert r[|r| - 1] == parts[|r| - 1];
        assert !forall i :: 0 <= i < |parts| ==> parts[i] == [];
      }
    } else if |topic| > 0 {
      assert topic[0] != Separator;
    }
  }

  /** Character.toUpperCase on ASCII letters and the dotless i. */
  function UpperChar(c: char): char
  {
    if 'a' <= c <= 'z' then c - 'a' + 'A'
    else if c == '\U{0131}' then 'I'
    else c
  }

  /** Character.toLowerCase on ASCII letters and the dotted capital I. */
  function LowerChar(c: char): char
  {
    if 'A' <= c <= 'Z' then c - 'A' + 'a'
    else if c == '\U{0130}' then 'i'
    else c
  }

  /** The character test of String.equalsIgnoreCase. */
  predicate CharEqualsIgnoreCase(a: char, b: char)
  {
    a == b || UpperChar(a) == UpperChar(b) || LowerChar(UpperChar(a)) == LowerChar(UpperChar(b))
  }

  predicate EqualsIgnoreCase(s: string, t: string)
  {
    |s| == |t| && forall i :: 0 <= i < |s| ==> CharEqualsIgnoreCase(s[i], t[i])
  }

  const OccupiedStatus := "occupied"
  const FreeStatus := "free"

  /** isOccupied: the status is "occupied" up to case. */
  predicate IsOccupied(e: SpotUpdateEvent)
  {
    EqualsIgnoreCase(OccupiedStatus, e.status)
  }

  /**
   * A status counts as occupied exactly when it has eight characters, each the
   * letter of "occupied" in lower or upper case, where an i may also be a
   * dotless i or a dotted capital I.
   */
  lemma IsOccupiedIff(e: SpotUpdateEvent)
    ensures IsOccupied(e) <==> |e.status| == 8 && forall i :: 0 <= i < 8 ==>
      (e.status[i] == "occupied"[i] || e.status[i] == "OCCUPIED"[i] ||
       ("occupied"[i] == 'i' && (e.status[i] == '\U{0131}' || e.status[i] == '\U{0130}')))
  {
  }

  /** The payloads a sensor sends: "free" is not occupied, "occupied" in any case is. */
  lemma IsOccupiedOnPayloads(spotId: string, now: int)
    ensures !IsOccupied(SpotUpdateEvent(spotId, FreeStatus, now))
    ensures IsOccupied(SpotUpdateEvent(spotId, OccupiedStatus, now))
    ensures IsOccupied(SpotUpdateEvent(spotId, "OCCUPIED", now))
    ensures IsOccupied(SpotUpdateEvent(spotId, "Occupied", now))
  {
  }
}
