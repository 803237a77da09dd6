/** A player's hand and calls, and the read-only queries over them that
    decide which calls a discard allows. */
module Hands {
  import opened Wrappers
  import opened Tiles
  import opened Seats

  /** Player.Call.CallType. */
  datatype CallType = Pon | Chii | Ankan | Chakan | Daiminkan

  /** Player.Call: what was called, from which seat, with which tiles of
      the hand, on which tile. */
  datatype Call = Call(callType: CallType, source: Wind, ownTiles: seq<Tile>, calledTile: Tile)
  {
    /** Every call except a concealed kan exposes the hand. */
    predicate IsOpen()
    {
      callType != Ankan
    }
  }

  const HandSize := 13

  /** Player.IsOpen: there is a call and some call is open. */
  function IsOpen(calls: seq<Call>): (r: bool)
    ensures r <==> exists i :: 0 <= i < |calls| && calls[i].callType != Ankan
  {
    if calls == [] then false else calls[0].IsOpen() || IsOpen(calls[1..])
  }

  /** Player.CountOf: how many tiles of the hand equal the tile. */
  function CountOf(tiles: seq<Tile>, t: Tile): (r: nat)
    ensures r == multiset(tiles)[t]
    ensures r <= |tiles|
  {
    if tiles == [] then 0
    else
      assert tiles == [tiles[0]] + tiles[1..];
      (if tiles[0] == t then 1 else 0) + CountOf(tiles[1..], t)
  }

  /** Player.CanPon: at least two equal tiles in the hand. */
  predicate CanPon(tiles: seq<Tile>, t: Tile)
  {
    CountOf(tiles, t) >= 2
  }

  /** Player.CanKan: at least three equal tiles in the hand. */
  predicate CanKan(tiles: seq<Tile>, t: Tile)
  {
    CountOf(tiles, t) >= 3
  }

  /** The hand queries read as counts of the multiset of the hand. */
  lemma CountQueries(tiles: seq<Tile>, t: Tile)
    ensures CanPon(tiles, t) <==> multiset(tiles)[t] >= 2
    ensures CanKan(tiles, t) <==> multiset(tiles)[t] >= 3
    ensures CanKan(tiles, t) ==> CanPon(tiles, t)
    ensures t !in tiles ==> !CanPon(tiles, t)
  {
  }

  /** Player.CanShouminkan: some earlier call is a Pon on this tile. */
  function CanShouminkan(calls: seq<Call>, t: Tile): (r: bool)
    ensures r <==> exists i :: 0 <= i < |calls| && calls[i].callType == Pon && calls[i].calledTile == t
  {
    if calls == [] then false
    else (calls[0].callType == Pon && calls[0].calledTile == t) || CanShouminkan(calls[1..], t)
  }

  /** Some tile of the hand has this kind and value. */
  predicate Holds(tiles: seq<Tile>, k: Kind, v: int)
  {
    exists i :: 0 <= i < |tiles| && tiles[i] == Tile(k, v)
  }

  /** The value pairs CanChii tries, in the order it builds them. */
  function ChiiCandidates(t: Tile): seq<(int, int)>
  {
    (if !IsTerminal(t) then [(t.value - 1, t.value + 1)] else [])
    + (if t.value < 8 then [(t.value + 1, t.value + 2)]
       else if t.value > 2 then [(t.value - 1, t.value - 2)]
       else [])
  }

  /** Player.CanChii: not an honor, and both values of some candidate pair
      are held in the tile's kind. */
  function CanChii(tiles: seq<Tile>, t: Tile): (r: bool)
    ensures IsHonor(t) ==> !r
    ensures !IsHonor(t) ==> (r <==>
              (!IsTerminal(t) && Holds(tiles, t.kind, t.value - 1) && Holds(tiles, t.kind, t.value + 1)) ||
              (t.value < 8 && Holds(tiles, t.kind, t.value + 1) && Holds(tiles, t.kind, t.value + 2)) ||
              (t.value >= 8 && Holds(tiles, t.kind, t.value - 1) && Holds(tiles, t.kind, t.value - 2)))
  {
    if IsHonor(t) then false
    else
      var cs := ChiiCandidates(t);
      exists c :: c in cs && Holds(tiles, t.kind, c.0) && Holds(tiles, t.kind, c.1)
  }

  /** The reference rule: the tile completes some run a, a+1, a+2 of its
      suit inside 1..9 whose other two tiles are held. */
  predicate RunAvailable(tiles: seq<Tile>, t: Tile)
  {
    IsSuit(t.kind) && exists a :: 1 <= a <= 7 && RunFrom(tiles, t, a)
  }

  /** The run a, a+1, a+2 holds t and the hand holds its other two tiles. */
  predicate RunFrom(tiles: seq<Tile>, t: Tile, a: int)
  {
    1 <= a <= 7 && a <= t.value <= a + 2 &&
    forall v :: a <= v <= a + 2 && v != t.value ==> Holds(tiles, t.kind, v)
  }

  /** CanChii agrees with the run rule except that, because of its else-if,
      the run below the tile (v-2, v-1) counts only for 8 and 9. */
  lemma ChiiVersusRuns(tiles: seq<Tile>, t: Tile)
    requires IsValid(t)
    ensures CanChii(tiles, t) ==> RunAvailable(tiles, t)
    ensures RunAvailable(tiles, t) && !CanChii(tiles, t) <==>
              IsSuit(t.kind) && 3 <= t.value <= 7 &&
              Holds(tiles, t.kind, t.value - 2) && Holds(tiles, t.kind, t.value - 1) &&
              !Holds(tiles, t.kind, t.value + 1)
  {
    var k, v := t.kind, t.value;
    if CanChii(tiles, t) {
      if !IsTerminal(t) && Holds(tiles, k, v - 1) && Holds(tiles, k, v + 1) {
        assert RunFrom(tiles, t, v - 1);
      } else if v < 8 && Holds(tiles, k, v + 1) && Holds(tiles, k, v + 2) {
        assert RunFrom(tiles, t, v);
      } else {
        assert RunFrom(tiles, t, v - 2);
      }
    }
    if RunAvailable(tiles, t) {
      var a :| 1 <= a <= 7 && RunFrom(tiles, t, a);
      assert a <= t.value <= a + 2;
      assert a == v - 2 || a == v - 1 || a == v;
      if a == v - 1 {
        assert Holds(tiles, k, v - 1) && Holds(tiles, k, v + 1);
      } else if a == v {
        assert Holds(tiles, k, v + 1) && Holds(tiles, k, v + 2);
      } else {
        assert Holds(tiles, k, v - 2) && Holds(tiles, k, v - 1);
      }
    }
    if IsSuit(k) && 3 <= v <= 7 && Holds(tiles, k, v - 2) && Holds(tiles, k, v - 1) {
      assert RunFrom(tiles, t, v - 2);
    }
  }

  /** The smallest hand that shows the difference: holding 3 and 4 of
      characters, a discarded 5 completes 3-4-5 but CanChii refuses it. */
  lemma ChiiLowerRunMissed()
    ensures RunAvailable([Tile(Character, 3), Tile(Character, 4)], Tile(Character, 5))
    ensures !CanChii([Tile(Character, 3), Tile(Character, 4)], Tile(Character, 5))
  {
    var hand := [Tile(Character, 3), Tile(Character, 4)];
    assert hand[0] == Tile(Character, 3) && hand[1] == Tile(Character, 4);
    assert Holds(hand, Character, 3) && Holds(hand, Character, 4);
    assert RunFrom(hand, Tile(Character, 5), 3);
  }

  /** Player.ValidCalls: Daiminkan then Pon on exactly three equal tiles,
      Pon on exactly two, then Chii when the discard came from the seat
      before this one and CanChii holds. */
  function ValidCalls(tiles: seq<Tile>, wind: Wind, winds: seq<Wind>, t: Tile, source: Wind): (r: seq<CallType>)
    requires |winds| > 0
    ensures Daiminkan in r <==> multiset(tiles)[t] == 3
    ensures Pon in r <==> multiset(tiles)[t] == 2 || multiset(tiles)[t] == 3
    ensures Chii in r <==> PreviousWind(winds, wind) == source && CanChii(tiles, t)
  {
    var melds := match CountOf(tiles, t)
                 case 3 => [Daiminkan, Pon]
                 case 2 => [Pon]
                 case _ => [];
    melds + (if PreviousWind(winds, wind) == source && CanChii(tiles, t) then [Chii] else [])
  }

  /** The order of the offered calls: each at most once, never a closed or
      added kan, Daiminkan before Pon, and Chii last. */
  lemma ValidCallsOrder(tiles: seq<Tile>, wind: Wind, winds: seq<Wind>, t: Tile, source: Wind)
    requires |winds| > 0
    ensures var r := ValidCalls(tiles, wind, winds, t, source);
            Ankan !in r && Chakan !in r &&
            (forall i, j :: 0 <= i < j < |r| ==> r[i] != r[j]) &&
            (Daiminkan in r ==> r[..2] == [Daiminkan, Pon]) &&
            (Chii in r ==> r[|r| - 1] == Chii)
  {
  }

  /** ValidCalls offers Pon exactly when CanPon holds and the hand does
      not hold four or more: with four equal tiles it offers neither Pon
      nor Daiminkan. */
  lemma ValidCallsExactCount(tiles: seq<Tile>, wind: Wind, winds: seq<Wind>, t: Tile, source: Wind)
    requires |winds| > 0
    ensures var r := ValidCalls(tiles, wind, winds, t, source);
            (Pon in r <==> CanPon(tiles, t) && CountOf(tiles, t) < 4) &&
            (Daiminkan in r ==> CanKan(tiles, t)) &&
            (multiset(tiles)[t] >= 4 ==> Pon !in r && Daiminkan !in r)
  {
  }

  /** Sorting is ordered by CompareTo. */
  predicate IsSorted(s: seq<Tile>)
  {
    forall i, j :: 0 <= i < j < |s| ==> AtMost(s[i], s[j])
  }

  /** The sorted hand with one tile inserted before the first larger one. */
  function Insert(x: Tile, s: seq<Tile>): (r: seq<Tile>)
    requires IsSorted(s)
    ensures multiset(r) == multiset(s) + multiset{x}
    ensures IsSorted(r)
  {
    if s == [] then [x]
    else if AtMost(x, s[0]) then
      AtMostAll(x, s);
      [x] + s
    else
      var rest := Insert(x, s[1..]);
      assert s == [s[0]] + s[1..];
      assert AtMost(s[0], x) by { AtMostTotalOrder(x, s[0], x); }
      assert forall j :: 0 <= j < |rest| ==> AtMost(s[0], rest[j]) by {
        forall j | 0 <= j < |rest| ensures AtMost(s[0], rest[j]) {
          assert rest[j] in multiset(rest);
          assert rest[j] == x || rest[j] in multiset(s[1..]);
          if rest[j] != x {
            var k :| 0 <= k < |s[1..]| && s[1..][k] == rest[j];
            assert s[k + 1] == rest[j];
          }
        }
      }
      [s[0]] + rest
  }

  /** A tile at most the head of a sorted sequence is at most all of it. */
  lemma AtMostAll(x: Tile, s: seq<Tile>)
    requires IsSorted(s) && |s| > 0 && AtMost(x, s[0])
    ensures forall j :: 0 <= j < |s| ==> AtMost(x, s[j])
  {
    forall j | 0 <= j < |s| ensures AtMost(x, s[j]) {
      AtMostTotalOrder(x, s[0], s[j]);
    }
  }

  /** Player.Sorted: the hand ordered by CompareTo. */
  function Sorted(tiles: seq<Tile>): (r: seq<Tile>)
    ensures multiset(r) == multiset(tiles)
    ensures |r| == |tiles|
    ensures IsSorted(r)
  {
    if tiles == [] then []
    else
      assert tiles == [tiles[0]] + tiles[1..];
      Insert(tiles[0], Sorted(tiles[1..]))
  }

  /** There is only one ordered arrangement of a hand, so Sorted is it
      whichever sort produced it. */
  lemma {:induction false} SortedUnique(a: seq<Tile>, b: seq<Tile>)
    requires IsSorted(a) && IsSorted(b) && multiset(a) == multiset(b)
    ensures a == b
    decreases |a|
  {
    if a != [] {
      SameHead(a, b);
      DropHead(a);
      DropHead(b);
      SortedUnique(a[1..], b[1..]);
    }
  }

  /** Two ordered arrangements of one non-empty hand start alike. */
  lemma SameHead(a: seq<Tile>, b: seq<Tile>)
    requires IsSorted(a) && IsSorted(b) && multiset(a) == multiset(b) && a != []
    ensures b != [] && a[0] == b[0]
  {
    assert a[0] in multiset(a);
    assert b != [];
    assert b[0] in multiset(b);
    var i :| 0 <= i < |b| && b[i] == a[0];
    var j :| 0 <= j < |a| && a[j] == b[0];
    assert AtMost(b[0], a[0]) by { if i > 0 { assert AtMost(b[0], b[i]); } }
    assert AtMost(a[0], b[0]) by { if j > 0 { assert AtMost(a[0], a[j]); } }
    AtMostTotalOrder(a[0], b[0], a[0]);
  }

  lemma DropHead(s: seq<Tile>)
    requires s != []
    ensures multiset(s[1..]) == multiset(s) - multiset{s[0]}
    ensures IsSorted(s) ==> IsSorted(s[1..])
  {
    assert s == [s[0]] + s[1..];
  }

  /** List.Remove: the hand without the first tile equal to t, unchanged
      when there is none. */
  function RemoveFirst(tiles: seq<Tile>, t: Tile): seq<Tile>
  {
    if t in tiles then tiles[..IndexOf(tiles, t)] + tiles[IndexOf(tiles, t) + 1..] else tiles
  }

  /** Removing a tile that is there takes exactly one copy out of the hand. */
  lemma RemoveFirstCount(tiles: seq<Tile>, t: Tile)
    requires t in tiles
    ensures multiset(RemoveFirst(tiles, t)) == multiset(tiles) - multiset{t}
    ensures |RemoveFirst(tiles, t)| == |tiles| - 1
  {
    var i := IndexOf(tiles, t);
    assert tiles == tiles[..i] + [t] + tiles[i + 1..];
  }

  /** The hand after Player.DiscardForTurn(t): t removed once, then a
      pending drawn tile appended. */
  function HandAfterDiscard(tiles: seq<Tile>, drawn: Option<Tile>, t: Tile): seq<Tile>
  {
    RemoveFirst(tiles, t) + (if drawn.Some? then [drawn.value] else [])
  }

  function Pending(drawn: Option<Tile>): multiset<Tile>
  {
    if drawn.Some? then multiset{drawn.value} else multiset{}
  }

  /** A discard from the hand conserves hand, pending tile and discards
      taken together; discarding a tile the hand lacks adds a copy of it,
      so discarding the pending tile itself keeps it in the hand too. */
  lemma DiscardConservation(tiles: seq<Tile>, drawn: Option<Tile>, discards: seq<Tile>, t: Tile)
    ensures t in tiles ==>
              multiset(HandAfterDiscard(tiles, drawn, t)) + multiset(discards + [t]) ==
              multiset(tiles) + Pending(drawn) + multiset(discards)
    ensures t !in tiles ==>
              multiset(HandAfterDiscard(tiles, drawn, t)) + multiset(discards + [t]) ==
              multiset(tiles) + Pending(drawn) + multiset(discards) + multiset{t}
  {
    if t in tiles {
      RemoveFirstCount(tiles, t);
    }
  }
}
