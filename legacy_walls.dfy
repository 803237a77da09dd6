/** The legacy wall: the same zones, tile set, shuffle and deal as the
    current one, with a bare Queue.Dequeue for draws, a generic failure for
    kan draws and no bound on dora reveals. */
module LegacyWalls {
  import opened Wrappers
  import opened Errors
  import opened Tiles
  import opened Walls

  /** Wall.DrawTile: Queue.Dequeue, whose empty-queue failure is an
      InvalidOperationException. */
  function DrawStep(z: Zones): (Result<Tile, Error>, Zones)
  {
    Dequeue(z, InvalidOperation)
  }

  /** Wall.DrawKan: as in the current wall, but a refused kan draw raises a
      plain exception ("Cannot draw a kan"). */
  function KanStep(z: Zones): (out: (Result<Tile, Error>, Zones))
    ensures out.0.Success? <==> z.CanKan()
    ensures out.0.Success? ==> out == Walls.DrawKanStep(z)
    ensures out.0.Failure? ==> out == (Failure(CannotDrawKan), z)
  {
    if !z.CanKan() then (Failure(CannotDrawKan), z)
    else
      var tile := z.kan[0];
      (Success(tile), z.(kan := z.kan[1..], live := Take(z.live, |z.live| - 1)))
  }

  /** Wall.RevealDora: the count always goes up; the notification carries
      the last of the revealed indicators, and Enumerable.Last fails only
      when there are none at all. */
  function RevealStep(z: Zones): (out: (Result<Tile, Error>, Zones))
    ensures out.1 == z.(revealed := z.revealed + 1)
    ensures out.0.Success? <==> |z.dora| > 0
    ensures out.0.Success? ==>
              out.0.value == z.dora[if z.revealed < |z.dora| then z.revealed else |z.dora| - 1]
    ensures out.0.Failure? ==> out.0.error == InvalidOperation
  {
    var z' := z.(revealed := z.revealed + 1);
    var doras := z'.Doras();
    if |doras| == 0 then (Failure(InvalidOperation), z')
    else (Success(doras[|doras| - 1]), z')
  }

  function Min(a: nat, b: nat): nat
  {
    if a < b then a else b
  }

  /** k reveals in a row. */
  lemma {:induction false} RevealsCount(z: Zones, k: nat)
    ensures Iterate(RevealStep, z, k) == z.(revealed := z.revealed + k)
    decreases k
  {
    if k > 0 {
      RevealsCount(RevealStep(z).1, k - 1);
    }
  }

  /** After a new game every reveal succeeds, however many are made; after
      k of them Doras holds min(k, 10) indicators and UraDoras min(k, 5),
      so the two agree in length only while k <= 5. */
  lemma UnboundedReveals(s: seq<Tile>, k: nat)
    requires |s| == TileCount
    ensures var w := Iterate(RevealStep, Deal(s), k);
            w.revealed == k &&
            RevealStep(w).0.Success? &&
            |w.Doras()| == Min(k, DoraCount) &&
            |w.UraDoras()| == Min(k, DoraCount / 2) &&
            (|w.Doras()| == |w.UraDoras()| <==> k <= DoraCount / 2)
  {
    DealLayout(s);
    RevealsCount(Deal(s), k);
  }

  /** Wall (legacy): the zones and the reveal count, changed in place. */
  class Wall {
    var liveWall: seq<Tile>
    var kanWall: seq<Tile>
    var doraWall: seq<Tile>
    var revealedDoras: nat

    /** The zones as a value. */
    function State(): Zones
      reads this
    {
      Zones(liveWall, kanWall, doraWall, revealedDoras)
    }

    /** A wall before its first NewGame holds no tiles. */
    constructor ()
      ensures State() == Zones([], [], [], 0)
    {
      liveWall, kanWall, doraWall, revealedDoras := [], [], [], 0;
    }

    method DrawTile() returns (r: Result<Tile, Error>)
      modifies this`liveWall
      ensures (r, State()) == DrawStep(old(State()))
    {
      if |liveWall| == 0 {
        return Failure(InvalidOperation);
      }
      r := Success(liveWall[0]);
      liveWall := liveWall[1..];
    }

    method RevealDora() returns (r: Result<Tile, Error>)
      modifies this`revealedDoras
      ensures (r, State()) == RevealStep(old(State()))
    {
      revealedDoras := revealedDoras + 1;
      var doras := State().Doras();
      if |doras| == 0 {
        return Failure(InvalidOperation);
      }
      r := Success(doras[|doras| - 1]);
    }

    method DrawKan() returns (r: Result<Tile, Error>)
      modifies this`liveWall, this`kanWall
      ensures (r, State()) == KanStep(old(State()))
    {
      if !State().CanKan() {
        return Failure(CannotDrawKan);
      }
      var tile := kanWall[0];
      kanWall := kanWall[1..];
      liveWall := Take(liveWall, |liveWall| - 1);
      r := Success(tile);
    }

    /** Wall.NewGame: the same full set, shuffle and deal as the current
        wall. */
    method NewGame(choose: seq<nat>)
      requires ValidChoices(choose, TileCount)
      modifies this
      ensures State() == NewGameZones(choose)
    {
      var tiles := ShuffledCopy(PrepareTiles(), choose);
      ghost var shuffled := tiles;
      kanWall := Take(tiles, KanCount);
      tiles := tiles[KanCount..];
      doraWall := Take(tiles, DoraCount);
      tiles := tiles[DoraCount..];
      liveWall := tiles;
      revealedDoras := 0;
      DealSplit(shuffled);
      assert shuffled == ShuffledSet(choose);
    }
  }
}
