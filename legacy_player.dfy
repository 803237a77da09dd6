/** The legacy Player: a seat's hand, pending drawn tile, calls and wind on
    the legacy wall. It keeps no discards and raises no discard event. */
module LegacyPlayers {
  import opened Wrappers
  import opened Errors
  import opened Tiles
  import opened Hands
  import opened Walls
  import LegacyWalls

  /** n draws from the legacy wall one after another, the first failure
      ending the run: the Select over Enumerable.Range(0, 13) in
      Player.DrawStartingHand, materialised by ToList. */
  method DrawTiles(wall: LegacyWalls.Wall, n: nat) returns (r: Result<seq<Tile>, Error>)
    modifies wall`liveWall
    ensures (r, wall.State()) == DrawN(old(wall.State()), n, InvalidOperation)
  {
    var hand: seq<Tile> := [];
    var i := 0;
    ghost var z0 := wall.State();
    DrawNTakesPrefix(z0, n, InvalidOperation);
    while i < n
      invariant 0 <= i <= n && i <= |z0.live|
      invariant hand == z0.live[..i]
      invariant wall.State() == z0.(live := z0.live[i..])
    {
      var t := wall.DrawTile();
      if t.Failure? {
        return Failure(t.error);
      }
      PrefixStep(z0.live, i);
      hand := hand + [t.value];
      i := i + 1;
    }
    r := Success(hand);
  }

  class Player {
    const wall: LegacyWalls.Wall
    var tiles: seq<Tile>
    /** Player.calls: no member of the legacy Player ever assigns the list,
        so it stays null (None). */
    var calls: Option<seq<Call>>
    var drawnTile: Option<Tile>
    var wind: Wind

    /** Player(wall, wind): the wall and the seat wind; no calls list. */
    constructor (wall: LegacyWalls.Wall, wind: Wind)
      ensures this.wall == wall && this.wind == wind
      ensures tiles == [] && calls == None && drawnTile == None
    {
      this.wall := wall;
      this.wind := wind;
      tiles, calls, drawnTile := [], None, None;
    }

    /** Player.IsOpen: some call other than a concealed kan; reading the
        count of the null calls list is a null dereference. */
    function IsOpen(): (r: Result<bool, Error>)
      reads this`calls
      ensures calls.None? <==> r == Failure(NullReference)
      ensures calls.Some? ==>
                r.Success? && (r.value <==> exists i :: 0 <= i < |calls.value| && calls.value[i].callType != Ankan)
    {
      if calls.None? then Failure(NullReference) else Success(Hands.IsOpen(calls.value))
    }

    /** Player.DrawStartingHand: the first thirteen tiles of the live wall
        become the hand; when fewer are left the draws empty the live wall,
        fail with InvalidOperation and the hand is left as it was. */
    method DrawStartingHand() returns (r: Outcome<Error>)
      modifies this`tiles, wall`liveWall
      ensures var z := old(wall.State());
              if HandSize <= |z.live| then
                r == Pass && tiles == z.live[..HandSize] && wall.State() == z.(live := z.live[HandSize..])
              else
                r == Fail(InvalidOperation) && tiles == old(tiles) && wall.State() == z.(live := [])
    {
      DrawNTakesPrefix(wall.State(), HandSize, InvalidOperation);
      var drawn := DrawTiles(wall, HandSize);
      if drawn.Failure? {
        return Fail(drawn.error);
      }
      tiles := drawn.value;
      r := Pass;
    }

    /** Player.DrawTile: the next tile becomes the pending one, replacing
        any tile still pending. */
    method DrawTile() returns (r: Outcome<Error>)
      modifies this`drawnTile, wall`liveWall
      ensures var (t, z) := LegacyWalls.DrawStep(old(wall.State()));
              wall.State() == z &&
              (t.Success? ==> r == Pass && drawnTile == Some(t.value)) &&
              (t.Failure? ==> r == Fail(t.error) && drawnTile == old(drawnTile))
    {
      var t := wall.DrawTile();
      if t.Failure? {
        return Fail(t.error);
      }
      drawnTile := Some(t.value);
      r := Pass;
    }

    /** Player.MakeCall: one call appended to the calls list; with the list
        null, a null dereference that records nothing. */
    method MakeCall(callType: CallType, source: Wind, discardedTile: Tile, ownTiles: seq<Tile>)
      returns (r: Outcome<Error>)
      modifies this`calls
      ensures old(calls).None? ==> r == Fail(NullReference) && calls == None
      ensures old(calls).Some? ==>
                r == Pass && calls == Some(old(calls).value + [Call(callType, source, ownTiles, discardedTile)])
      ensures tiles == old(tiles)
    {
      if calls.None? {
        return Fail(NullReference);
      }
      calls := Some(calls.value + [Call(callType, source, ownTiles, discardedTile)]);
      r := Pass;
    }

    /** Player.DiscardForTurn: t leaves the hand once, and a pending tile
        joins the hand. Nothing records the discard. */
    method DiscardForTurn(t: Tile)
      modifies this`tiles, this`drawnTile
      ensures tiles == HandAfterDiscard(old(tiles), old(drawnTile), t)
      ensures drawnTile == None
    {
      tiles := RemoveFirst(tiles, t);
      if drawnTile.Some? {
        tiles := tiles + [drawnTile.value];
        drawnTile := None;
      }
    }
  }
}
