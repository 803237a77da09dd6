/** Player: a seat's hand, pending drawn tile, discards and calls, changed
    in place by draws, discards and calls. */
module Players {
  import opened Wrappers
  import opened Errors
  import opened Tiles
  import opened Hands
  import opened Walls

  /** n tiles drawn from the wall one after another, the first failure
      ending the run: the Select over Enumerable.Range(0, n) in
      Player.DrawStartingHand. */
  method DrawTiles(wall: Wall, n: nat) returns (r: Result<seq<Tile>, Error>)
    modifies wall`liveWall
    ensures (r, wall.State()) == DrawN(old(wall.State()), n, LiveWallExhausted)
  {
    var hand: seq<Tile> := [];
    var i := 0;
    ghost var z0 := wall.State();
    DrawNTakesPrefix(z0, n, LiveWallExhausted);
    while i < n
      invariant 0 <= i <= n && i <= |z0.live|
      invariant hand == z0.live[..i]
      invariant wall.State() == z0.(live := z0.live[i..])
    {
      var t := wall.DrawTile();
      if t.Failure? {
        return Failure(t.error);
      }
      PrefixStep(z0.live, i);
      hand := hand + [t.value];
      i := i + 1;
    }
    r := Success(hand);
  }

  class Player {
    /** The game's wall, which every player draws from. */
    const wall: Wall
    /** Player.Index: the seat's position in Game.Players. */
    const index: int
    var tiles: seq<Tile>
    var calls: seq<Call>
    var drawnTile: Option<Tile>
    var discards: seq<Tile>
    var wind: Wind

    constructor (wall: Wall, index: int)
      ensures this.wall == wall && this.index == index
      ensures tiles == [] && calls == [] && drawnTile == None && discards == [] && wind == East
    {
      this.wall := wall;
      this.index := index;
      tiles, calls, drawnTile, discards, wind := [], [], None, [], East;
    }

    /** Player.DrawStartingHand: thirteen draws become the hand, the first
        thirteen tiles of the live wall in order; when fewer are left the
        draws empty the live wall and the hand is left as it was. */
    method DrawStartingHand() returns (r: Outcome<Error>)
      modifies this`tiles, wall`liveWall
      ensures var z := old(wall.State());
              if HandSize <= |z.live| then
                r == Pass && tiles == z.live[..HandSize] && wall.State() == z.(live := z.live[HandSize..])
              else
                r == Fail(LiveWallExhausted) && tiles == old(tiles) && wall.State() == z.(live := [])
    {
      DrawNTakesPrefix(wall.State(), HandSize, LiveWallExhausted);
      var drawn := DrawTiles(wall, HandSize);
      if drawn.Failure? {
        return Fail(drawn.error);
      }
      tiles := drawn.value;
      r := Pass;
    }

    /** Player.DrawTile: the next tile becomes the pending one, replacing
        any tile still pending. */
    method DrawTile() returns (r: Outcome<Error>)
      modifies this`drawnTile, wall`liveWall
      ensures var (t, z) := DrawTileStep(old(wall.State()));
              wall.State() == z &&
              (t.Success? ==> r == Pass && drawnTile == Some(t.value)) &&
              (t.Failure? ==> r == Fail(t.error) && drawnTile == old(drawnTile))
    {
      var t := wall.DrawTile();
      if t.Failure? {
        return Fail(t.error);
      }
      drawnTile := Some(t.value);
      r := Pass;
    }

    /** Player.MakeCall: one call recorded; the hand is not touched. */
    method MakeCall(callType: CallType, source: Wind, discardedTile: Tile, ownTiles: seq<Tile>)
      modifies this`calls
      ensures calls == old(calls) + [Call(callType, source, ownTiles, discardedTile)]
      ensures tiles == old(tiles)
    {
      calls := calls + [Call(callType, source, ownTiles, discardedTile)];
    }

    /** Player.DiscardForTurn: t goes to the discards and leaves the hand
        once, and a pending tile joins the hand. */
    method DiscardForTurn(t: Tile)
      modifies this`discards, this`tiles, this`drawnTile
      ensures discards == old(discards) + [t]
      ensures tiles == HandAfterDiscard(old(tiles), old(drawnTile), t)
      ensures drawnTile == None
    {
      discards := discards + [t];
      tiles := RemoveFirst(tiles, t);
      if drawnTile.Some? {
        tiles := tiles + [drawnTile.value];
        drawnTile := None;
      }
    }

    /** Player.DiscardDrawnTile: the pending tile goes to the discards and
        the hand is not touched. With nothing pending the call is refused. */
    method DiscardDrawnTile() returns (r: Result<Tile, Error>)
      modifies this`discards, this`drawnTile
      ensures old(drawnTile).None? ==> r == Failure(NullReference) && discards == old(discards)
      ensures old(drawnTile).Some? ==>
                r == Success(old(drawnTile).value) && discards == old(discards) + [old(drawnTile).value]
      ensures drawnTile == None
      ensures tiles == old(tiles)
    {
      if drawnTile.None? {
        return Failure(NullReference);
      }
      var t := drawnTile.value;
      discards := discards + [t];
      drawnTile := None;
      r := Success(t);
    }
  }
}
