/**
 * The static layout of the lot (ParkingTopology.java): which lanes are stack lanes,
 * which lane a stack lane blocks, which two spots a spot blocks, and the textual
 * spot id "L{lane}-P{pos}" together with the parser that recovers lane and position.
 */
module Topology {
  import opened Wrappers

  /** The sentinel Java returns for "blocks no lane". */
  const NoLane: int := -1

  predicate IsStackLane(lane: int)
  {
    lane == 2 || lane == 3
  }

  /** The lane whose spots a car in `lane` makes unreachable, or NoLane. */
  function BlockedLane(lane: int): (b: int)
    ensures b != NoLane <==> IsStackLane(lane)
    ensures b != NoLane ==> !IsStackLane(b) && b >= 0
  {
    if lane == 2 then 1
    else if lane == 3 then 4
    else NoLane
  }

  /** Ids of the spots that a car at (lane, pos) blocks: positions 2*pos and 2*pos+1 of the blocked lane. */
  function BlockedSpotIds(lane: int, pos: int): (ids: seq<string>)
    ensures |ids| == (if IsStackLane(lane) then 2 else 0)
  {
    var target := BlockedLane(lane);
    if target == NoLane then []
    else [CreateSpotId(target, pos * 2), CreateSpotId(target, pos * 2 + 1)]
  }

  // ---------------------------------------------------------------------------
  // Decimal digits, as Java's int-to-string conversion writes them

  predicate IsDigit(c: char)
  {
    '0' <= c <= '9'
  }

  predicate AllDigits(s: string)
  {
    forall i :: 0 <= i < |s| ==> IsDigit(s[i])
  }

  function DigitChar(d: nat): (c: char)
    requires d < 10
    ensures IsDigit(c)
  {
    "0123456789"[d]
  }

  function DigitValue(c: char): (d: nat)
    requires IsDigit(c)
    ensures d < 10
  {
    c as int - '0' as int
  }

  /** Decimal representation of a natural number, without leading zeros. */
  function NatToString(n: nat): (s: string)
    ensures |s| > 0 && AllDigits(s)
    decreases n
  {
    if n < 10 then [DigitChar(n)] else NatToString(n / 10) + [DigitChar(n % 10)]
  }

  /** Java's Integer.toString: a minus sign before the magnitude of a negative number. */
  function IntToString(i: int): string
  {
    if i < 0 then "-" + NatToString(-i) else NatToString(i)
  }

  /** Value of a string of decimal digits. */
  function ParseNat(s: string): nat
    requires AllDigits(s)
  {
    if s == [] then 0 else ParseNat(s[..|s| - 1]) * 10 + DigitValue(s[|s| - 1])
  }

  /** Number of leading decimal digits of `s`. */
  function DigitPrefix(s: string): (k: nat)
    ensures k <= |s|
    ensures AllDigits(s[..k])
    ensures k < |s| ==> !IsDigit(s[k])
  {
    if s == [] || !IsDigit(s[0]) then 0
    else
      var k := 1 + DigitPrefix(s[1..]);
      assert s[..k] == [s[0]] + s[1..][..k - 1];
      k
  }

  lemma {:induction false} DigitValueOfChar(d: nat)
    requires d < 10
    ensures DigitValue(DigitChar(d)) == d
  {
  }

  lemma {:induction false} ParseNatToString(n: nat)
    ensures ParseNat(NatToString(n)) == n
    decreases n
  {
    var s := NatToString(n);
    if n < 10 {
      DigitValueOfChar(n);
    } else {
      ParseNatToString(n / 10);
      DigitValueOfChar(n % 10);
      assert s[..|s| - 1] == NatToString(n / 10);
    }
  }

  /** Distinct natural numbers are written differently. */
  lemma NatToStringInjective(a: nat, b: nat)
    requires NatToString(a) == NatToString(b)
    ensures a == b
  {
    ParseNatToString(a);
    ParseNatToString(b);
  }

  lemma {:induction false} DigitPrefixOfDigits(d: string, rest: string)
    requires AllDigits(d)
    requires rest != [] && !IsDigit(rest[0])
    ensures DigitPrefix(d + rest) == |d|
    decreases |d|
  {
    var s := d + rest;
    if d == [] {
      assert s == rest;
    } else {
      assert s[0] == d[0] && IsDigit(s[0]);
      assert s[1..] == d[1..] + rest;
      assert AllDigits(d[1..]) by {
        forall i | 0 <= i < |d[1..]| ensures IsDigit(d[1..][i]) {
          assert d[1..][i] == d[i + 1];
        }
      }
      DigitPrefixOfDigits(d[1..], rest);
    }
  }

  // ---------------------------------------------------------------------------
  // Spot ids

  /** The id of the spot at (lane, pos): "L" + lane + "-P" + pos. */
  function CreateSpotId(lane: int, pos: int): string
  {
    "L" + IntToString(lane) + "-P" + IntToString(pos)
  }

  /**
   * Recovers (lane, pos) from an id of the form "L<digits>-P<digits>"; any other
   * text is malformed. SpotInfo.java has no lane or position, but the scoring
   * allocator needs them, so they are read back from the id: this is the inverse
   * of CreateSpotId on non-negative pairs.
   */
  function ParseSpotId(id: string): (r: Option<(nat, nat)>)
  {
    if |id| == 0 || id[0] != 'L' then None
    else
      var k := 1 + DigitPrefix(id[1..]);
      if k == 1 || k + 2 > |id| || id[k] != '-' || id[k + 1] != 'P' then None
      else
        var rest := id[k + 2..];
        if rest == [] || !AllDigits(rest) then None
        else
          assert id[1..k] == id[1..][..k - 1];
          Some((ParseNat(id[1..k]), ParseNat(rest)))
  }

  /** Lane and position of a spot; a malformed id falls back to lane 0, position 0. */
  function LanePos(id: string): (lp: (int, int))
    ensures lp.0 >= 0 && lp.1 >= 0
  {
    match ParseSpotId(id)
    case Some(lp) => (lp.0, lp.1)
    case None => (0, 0)
  }

  /** Parsing an id made by CreateSpotId gives back its lane and position. */
  lemma {:induction false} ParseCreateSpotId(lane: nat, pos: nat)
    ensures ParseSpotId(CreateSpotId(lane, pos)) == Some((lane, pos))
  {
    var l, p := NatToString(lane), NatToString(pos);
    assert IntToString(lane) == l && IntToString(pos) == p;
    var id := CreateSpotId(lane, pos);
    assert id == "L" + l + "-P" + p;
    assert id[1..] == l + ("-P" + p);
    DigitPrefixOfDigits(l, "-P" + p);
    var k := 1 + |l|;
    assert id[0] == 'L' && id[k] == '-' && id[k + 1] == 'P';
    assert id[1..k] == l;
    assert id[k + 2..] == p;
    ParseNatToString(lane);
    ParseNatToString(pos);
    assert ParseSpotId(id) == Some((ParseNat(l), ParseNat(p)));
  }

  /** The lane and position read from the id of (lane, pos) are lane and pos. */
  lemma LanePosOfCreateSpotId(lane: nat, pos: nat)
    ensures LanePos(CreateSpotId(lane, pos)) == (lane, pos)
  {
    ParseCreateSpotId(lane, pos);
  }

  /** Two non-negative (lane, pos) pairs share an id only if they are equal. */
  lemma CreateSpotIdInjective(l1: nat, p1: nat, l2: nat, p2: nat)
    requires CreateSpotId(l1, p1) == CreateSpotId(l2, p2)
    ensures l1 == l2 && p1 == p2
  {
    ParseCreateSpotId(l1, p1);
    ParseCreateSpotId(l2, p2);
  }

  /** A stack lane's spot at `pos` blocks exactly the spots q of the blocked lane with q / 2 == pos. */
  lemma BlockedSpotIdsExactly(lane: int, pos: nat, l: nat, q: nat)
    ensures CreateSpotId(l, q) in BlockedSpotIds(lane, pos) <==> IsStackLane(lane) && l == BlockedLane(lane) && q / 2 == pos
  {
    var ids := BlockedSpotIds(lane, pos);
    if IsStackLane(lane) {
      var b := BlockedLane(lane);
      if CreateSpotId(l, q) == ids[0] {
        CreateSpotIdInjective(l, q, b, pos * 2);
      } else if CreateSpotId(l, q) == ids[1] {
        CreateSpotIdInjective(l, q, b, pos * 2 + 1);
      }
      if l == b && q / 2 == pos {
        assert q == pos * 2 || q == pos * 2 + 1;
      }
    }
  }

  /** A stack lane's spot at `pos` blocks, in this order, positions 2 * pos and 2 * pos + 1 of the blocked lane. */
  lemma BlockedSpotIdsInOrder(lane: int, pos: nat)
    requires IsStackLane(lane)
    ensures var ids := BlockedSpotIds(lane, pos);
      && |ids| == 2
      && ParseSpotId(ids[0]) == Some((BlockedLane(lane), 2 * pos))
      && ParseSpotId(ids[1]) == Some((BlockedLane(lane), 2 * pos + 1))
  {
    ParseCreateSpotId(BlockedLane(lane), 2 * pos);
    ParseCreateSpotId(BlockedLane(lane), 2 * pos + 1);
  }

  /** Distinct positions in one lane block disjoint pairs of spots, and each pair has two distinct ids. */
  lemma BlockedSpotIdsDisjoint(lane: int, p1: nat, p2: nat)
    requires p1 != p2
    ensures forall id :: id in BlockedSpotIds(lane, p1) ==> id !in BlockedSpotIds(lane, p2)
    ensures |BlockedSpotIds(lane, p1)| == 2 ==> BlockedSpotIds(lane, p1)[0] != BlockedSpotIds(lane, p1)[1]
  {
    if IsStackLane(lane) {
      var b := BlockedLane(lane);
      forall id | id in BlockedSpotIds(lane, p1)
        ensures id !in BlockedSpotIds(lane, p2)
      {
        var q := if id == CreateSpotId(b, p1 * 2) then p1 * 2 else p1 * 2 + 1;
        BlockedSpotIdsExactly(lane, p1, b, q);
        BlockedSpotIdsExactly(lane, p2, b, q);
      }
      if CreateSpotId(b, p1 * 2) == CreateSpotId(b, p1 * 2 + 1) {
        CreateSpotIdInjective(b, p1 * 2, b, p1 * 2 + 1);
      }
    }
  }
}
