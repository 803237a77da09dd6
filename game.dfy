/** Game (current engine): the seats, the wall and the state machine of one
    hand, driven by Setup, Start and the players' discards. Every method is
    proved to do what the matching Cascade function says. */
module Games {
  import opened Wrappers
  import opened Errors
  import opened Tiles
  import opened Seats
  import opened Hands
  import opened Walls
  import opened StateMachine
  import opened Players
  import Cascade

  /** Each player's hand, in Players order. */
  function HandsOf(ps: seq<Player>): (r: seq<seq<Tile>>)
    reads ps`tiles
    ensures |r| == |ps|
    ensures forall i {:trigger r[i]} :: 0 <= i < |ps| ==> r[i] == ps[i].tiles
  {
    if ps == [] then [] else [ps[0].tiles] + HandsOf(ps[1..])
  }

  /** Each player's pending drawn tile, in Players order. */
  function DrawnOf(ps: seq<Player>): (r: seq<Option<Tile>>)
    reads ps`drawnTile
    ensures |r| == |ps|
    ensures forall i {:trigger r[i]} :: 0 <= i < |ps| ==> r[i] == ps[i].drawnTile
  {
    if ps == [] then [] else [ps[0].drawnTile] + DrawnOf(ps[1..])
  }

  /** Each player's seat wind, in Players order. */
  function SeatsOf(ps: seq<Player>): (r: seq<Wind>)
    reads ps`wind
    ensures |r| == |ps|
    ensures forall i {:trigger r[i]} :: 0 <= i < |ps| ==> r[i] == ps[i].wind
  {
    if ps == [] then [] else [ps[0].wind] + SeatsOf(ps[1..])
  }

  /** Enumerable.Range(0, n).Select(index => new Player(game, index)):
      n fresh players on the wall at indexes 0..n-1, with no tiles. */
  method NewPlayers(wall: Wall, n: nat) returns (ps: seq<Player>)
    ensures |ps| == n
    ensures forall j :: 0 <= j < n ==> fresh(ps[j])
    ensures forall j :: 0 <= j < n ==> ps[j].wall == wall && ps[j].index == j
    ensures HandsOf(ps) == seq(n, _ => []) && DrawnOf(ps) == seq(n, _ => None)
  {
    ps := [];
    var k := 0;
    while k < n
      invariant 0 <= k <= n && |ps| == k
      invariant forall j :: 0 <= j < k ==>
                  fresh(ps[j]) && ps[j].wall == wall && ps[j].index == j && ps[j].tiles == [] && ps[j].drawnTile == None
    {
      var p := new Player(wall, k);
      ps := ps + [p];
      k := k + 1;
    }
    assert forall j :: 0 <= j < n ==> HandsOf(ps)[j] == [] && DrawnOf(ps)[j] == None;
  }

  /** The foreach over Players in Game.Setup: the first player takes
      start and each next one the wind after its predecessor's. */
  method AssignWinds(ps: seq<Player>, winds: seq<Wind>, start: Wind)
    requires forall j :: 0 <= j < |ps| ==> ps[j].index == j
    modifies ps`wind
    ensures SeatsOf(ps) == Rotation(winds, start, |ps|)
  {
    ghost var seats := Rotation(winds, start, |ps|);
    var w := start;
    var k := 0;
    while k < |ps|
      invariant 0 <= k <= |ps|
      invariant k < |ps| ==> w == seats[k]
      invariant forall j :: 0 <= j < k ==> ps[j].wind == seats[j]
    {
      ps[k].wind := w;
      if k + 1 < |ps| {
        RotationStep(winds, start, |ps|, k + 1);
      }
      w := NextWind(winds, w);
      k := k + 1;
    }
    assert forall j :: 0 <= j < |ps| ==> SeatsOf(ps)[j] == seats[j];
  }

  /** The players Game.Setup creates for n seats and a turn: fresh, at
      indexes 0..n-1 on the wall, empty-handed, the dealer (East) at index
      turn - 1 and the winds in play held once each. */
  method NewSeats(wall: Wall, n: nat, turn: int) returns (ps: seq<Player>)
    requires 2 <= n <= 4 && 1 <= turn <= n
    ensures |ps| == n
    ensures forall j :: 0 <= j < n ==> fresh(ps[j])
    ensures forall j :: 0 <= j < n ==> ps[j].wall == wall && ps[j].index == j
    ensures HandsOf(ps) == seq(n, _ => []) && DrawnOf(ps) == seq(n, _ => None)
    ensures SeatsOf(ps) == DealtSeats(n, turn) && ps[turn - 1].wind == East
    ensures IsSeating(SeatsOf(ps), FirstWinds(n))
    ensures forall j, k :: 0 <= j < k < n ==> ps[j] != ps[k]
  {
    var ws := FirstWinds(n);
    ps := NewPlayers(wall, n);
    assert forall j, k :: 0 <= j < k < n ==> ps[j].index != ps[k].index;
    AssignWinds(ps, ws, FirstSeatWind(ws, turn));
    SetupSeating(n, turn);
  }

  /** Player.DiscardForTurn on the i-th of distinct players: only that
      seat's hand, pending tile and discards change. */
  method DiscardAt(ps: seq<Player>, i: nat, p: Player, tile: Tile)
    requires i < |ps| && p == ps[i] && forall j, k :: 0 <= j < k < |ps| ==> ps[j] != ps[k]
    modifies p`tiles, p`drawnTile, p`discards
    ensures HandsOf(ps) == old(HandsOf(ps))[i := HandAfterDiscard(old(ps[i].tiles), old(ps[i].drawnTile), tile)]
    ensures DrawnOf(ps) == old(DrawnOf(ps))[i := None]
    ensures ps[i].discards == old(ps[i].discards) + [tile]
    ensures forall j :: 0 <= j < |ps| && j != i ==> ps[j].discards == old(ps[j].discards)
  {
    ghost var hands := HandsOf(ps);
    ghost var drawn := DrawnOf(ps);
    p.DiscardForTurn(tile);
    assert HandsOf(ps) == hands[i := p.tiles];
    assert DrawnOf(ps) == drawn[i := None];
  }

  class Game {
    const wall: Wall
    /** Game.Mode, as its underlying enum value. */
    var mode: int
    var currentWind: Wind
    var turn: int
    var repeat: int
    /** Game.State; null until Setup. */
    var state: Fsm?<Cascade.GameState>
    var players: seq<Player>
    var currentTurn: Wind
    var winds: seq<Wind>
    var lastDiscard: Option<Tile>

    /** After Setup: a state machine, two to four seats over one shared
        wall, each its own object at its own index, the winds in play in
        enum order, and each of them held by exactly one seat. */
    ghost predicate Valid()
      reads this`state, this`winds, this`players, state, players`wind
    {
      state != null && state.Valid() &&
      2 <= |winds| <= 4 && winds == FirstWinds(|winds|) &&
      |players| == |winds| &&
      (forall i, j :: 0 <= i < j < |players| ==> players[i] != players[j]) &&
      (forall i :: 0 <= i < |players| ==> players[i].wall == wall && players[i].index == i) &&
      IsSeating(SeatsOf(players), winds)
    }

    /** The board as a Cascade table. */
    function View(): Cascade.Table
      requires state != null
      reads this, wall, state, players`tiles, players`drawnTile, players`wind
    {
      Cascade.Table(wall.State(), HandsOf(players), DrawnOf(players), SeatsOf(players),
                    winds, currentTurn, lastDiscard, state.history)
    }

    /** A new game owns an empty wall and has no seats or state machine
        until Setup. */
    constructor ()
      ensures fresh(wall) && wall.State() == Zones([], [], [], 0)
      ensures state == null && players == [] && winds == [] && lastDiscard == None
    {
      wall := new Wall();
      mode, currentWind, turn, repeat := 0, East, 0, 0;
      state, players, currentTurn, winds, lastDiscard := null, [], East, [], None;
    }

    /** Game.ActivePlayer, Players.Find(p => p.Wind == CurrentTurn): the
        player at the seat ActiveIndex picks, null when no seat holds the
        current turn's wind. */
    function ActivePlayer(): (p: Player?)
      reads this, players`wind
      ensures p == null <==> currentTurn !in SeatsOf(players)
      ensures p != null ==> p == players[Cascade.ActiveIndex(SeatsOf(players), currentTurn).value]
      ensures p != null ==> p in players && p.wind == currentTurn
    {
      var k := Cascade.ActiveIndex(SeatsOf(players), currentTurn);
      if k.None? then null else players[k.value]
    }

    /** Game.Setup: the three range checks in order (turn, mode, turn, repeat,
        the mode's own exception coming between the two turn bounds),
        nothing changed when one fails; otherwise the mode, wind, turn and
        repeat are recorded and the seats installed. */
    method Setup(mode: int, wind: Wind, turn: int, repeat: int, now: nat) returns (r: Outcome<Error>)
      modifies this`mode, this`currentWind, this`turn, this`repeat, this`winds, this`state, this`players
      ensures var n := PlayersForMode(mode);
              r == if turn < 1 then Fail(TurnOutOfRange)
                   else if n.Failure? then Fail(UnknownMode)
                   else if turn > n.value then Fail(TurnOutOfRange)
                   else if repeat < 0 then Fail(RepeatOutOfRange)
                   else Pass
      ensures r.Fail? ==> unchanged(this)
      ensures r == Pass ==>
                this.mode == mode && currentWind == wind && this.turn == turn && this.repeat == repeat &&
                Seated(PlayersForMode(mode).value, turn, now)
      ensures r == Pass ==> fresh(state) && forall i :: 0 <= i < |players| ==> fresh(players[i])
    {
      if turn < 1 {
        return Fail(TurnOutOfRange);
      }
      var count := PlayersForMode(mode);
      if count.Failure? {
        return Fail(count.error);
      }
      var n := count.value;
      if turn > n {
        return Fail(TurnOutOfRange);
      }
      if repeat < 0 {
        return Fail(RepeatOutOfRange);
      }
      this.mode, currentWind, this.turn, this.repeat := mode, wind, turn, repeat;
      InstallSeats(n, turn, now);
      r := Pass;
    }

    /** The seats as Setup leaves them for n players and a turn: valid,
        the first n winds in play, the players seated cyclically from the
        turn (the dealer at index turn - 1), no tiles anywhere yet, and the
        state machine in WaitingToStart. */
    ghost predicate Seated(n: nat, turn: int, now: nat)
      reads this`state, this`winds, this`players, state, players`wind, players`tiles, players`drawnTile
    {
      Valid() && 2 <= n <= 4 && 1 <= turn <= n && winds == FirstWinds(n) &&
      SeatsOf(players) == DealtSeats(n, turn) &&
      players[turn - 1].wind == East &&
      HandsOf(players) == seq(n, _ => []) &&
      DrawnOf(players) == seq(n, _ => None) &&
      state.history == [Transition(Cascade.WaitingToStart, now)]
    }

    /** The winds in play, the players and the state machine Game.Setup
        creates once its checks have passed. */
    method InstallSeats(n: nat, turn: int, now: nat)
      requires 2 <= n <= 4 && 1 <= turn <= n
      modifies this`winds, this`state, this`players
      ensures Seated(n, turn, now)
      ensures fresh(state) && forall i :: 0 <= i < |players| ==> fresh(players[i])
    {
      var ps := NewSeats(wall, n, turn);
      var fsm := new Fsm<Cascade.GameState>(Cascade.WaitingToStart, now);
      winds, state, players := FirstWinds(n), fsm, ps;
      assert Valid();
    }

    /** FSM.Set on the game's state machine, the state-changed handler run
        when the state changes. */
    method SetState(s: Cascade.GameState, now: nat) returns (r: Outcome<Error>)
      requires Valid()
      modifies this`currentTurn, state, wall`liveWall, players`tiles, players`drawnTile
      ensures Valid()
      ensures (r, View()) == Cascade.SetState(old(View()), s, now, Cascade.Current)
      decreases Cascade.Rank(s), 2
    {
      var notified := state.Set(s, now);
      if notified.None? {
        return Pass;
      }
      r := OnStateChanged(s, now);
    }

    /** Game.OnStateChanged. */
    method OnStateChanged(s: Cascade.GameState, now: nat) returns (r: Outcome<Error>)
      requires Valid()
      modifies this`currentTurn, state, wall`liveWall, players`tiles, players`drawnTile
      ensures Valid()
      ensures (r, View()) == Cascade.OnStateChanged(old(View()), s, now, Cascade.Current)
      decreases Cascade.Rank(s), 1
    {
      match s
      case GameStart =>
        r := SetupBoard(now);
      case PlayerTurnBegin =>
        r := StartPlayerTurn(now);
      case WaitingForCall =>
        var waits := CallsWaiting();
        if waits {
          r := Pass;
        } else {
          r := NextTurn(now);
        }
      case _ =>
        r := Pass;
    }

    /** The call window of the WaitingForCall case: whether any player
        has a valid call on the last discard. */
    method CallsWaiting() returns (waits: bool)
      requires Valid()
      ensures waits == Cascade.Waits(View(), Cascade.Current)
    {
      if lastDiscard.None? {
        return false;
      }
      var tile := lastDiscard.value;
      var hands, seats := HandsOf(players), SeatsOf(players);
      waits := false;
      var i := 0;
      while i < |hands|
        invariant 0 <= i <= |hands|
        invariant waits <==> exists j :: 0 <= j < i && ValidCalls(hands[j], seats[j], winds, tile, currentTurn) != []
      {
        var calls := ValidCalls(hands[i], seats[i], winds, tile, currentTurn);
        if calls != [] {
          waits := true;
        }
        i := i + 1;
      }
    }

    /** Player.DrawStartingHand on the k-th seat. */
    method DealTo(k: nat) returns (r: Outcome<Error>)
      requires Valid() && k < |players|
      modifies wall`liveWall, players`tiles
      ensures Valid()
      ensures var t := old(View());
              var (d, z) := Cascade.DrawHand(t.zones, Cascade.Current);
              if d.Failure? then r == Fail(d.error) && View() == t.(zones := z)
              else r == Pass && View() == t.(zones := z, hands := t.hands[k := d.value])
    {
      ghost var t0 := View();
      var p := players[k];
      r := p.DrawStartingHand();
      assert SeatsOf(players) == t0.seats && DrawnOf(players) == t0.drawn;
      if r.Fail? {
        assert HandsOf(players) == t0.hands;
        return;
      }
      assert HandsOf(players) == t0.hands[k := p.tiles];
    }

    /** Players.ForEach(p => p.DrawStartingHand()): the players draw
        their hands in Players order, the first failure ending the deal. */
    method DealHands() returns (r: Outcome<Error>)
      requires Valid()
      modifies wall`liveWall, players`tiles
      ensures Valid()
      ensures var (d, z, hands) := Cascade.DealFrom(old(View()).zones, old(View()).hands, 0, Cascade.Current);
              r == d && View() == old(View()).(zones := z, hands := hands)
    {
      ghost var t0 := View();
      var k := 0;
      while k < |players|
        invariant 0 <= k <= |players|
        invariant Valid()
        invariant View() == t0.(zones := View().zones, hands := View().hands)
        invariant Cascade.DealFrom(View().zones, View().hands, k, Cascade.Current) ==
                  Cascade.DealFrom(t0.zones, t0.hands, 0, Cascade.Current)
      {
        r := DealTo(k);
        if r.Fail? {
          return;
        }
        k := k + 1;
      }
      r := Pass;
    }

    /** Game.SetupBoard: every player draws a starting hand in turn, then
        East's turn begins. */
    method SetupBoard(now: nat) returns (r: Outcome<Error>)
      requires Valid()
      modifies this`currentTurn, state, wall`liveWall, players`tiles, players`drawnTile
      ensures Valid()
      ensures (r, View()) == Cascade.SetupBoard(old(View()), now, Cascade.Current)
      decreases 2, 0
    {
      r := DealHands();
      if r.Fail? {
        return;
      }
      ghost var t1 := View();
      currentTurn := East;
      assert View() == t1.(currentTurn := East);
      r := SetState(Cascade.PlayerTurnBegin, now);
    }

    /** Player.DrawTile on the i-th seat. */
    method DrawFor(p: Player, ghost i: nat) returns (r: Outcome<Error>)
      requires Valid() && i < |players| && p == players[i]
      modifies p`drawnTile, wall`liveWall
      ensures Valid()
      ensures var (d, z) := Dequeue(old(View()).zones, LiveWallExhausted);
              if d.Failure? then r == Fail(d.error) && View() == old(View()).(zones := z)
              else r == Pass && View() == old(View()).(zones := z, drawn := old(View()).drawn[i := Some(d.value)])
    {
      ghost var t0 := View();
      r := p.DrawTile();
      if r.Fail? {
        assert View() == t0.(zones := wall.State());
        return;
      }
      assert DrawnOf(players) == t0.drawn[i := p.drawnTile];
      assert View() == t0.(zones := wall.State(), drawn := t0.drawn[i := p.drawnTile]);
    }

    /** Game.StartPlayerTurn: the active player draws, then the game waits
        for a discard. */
    method StartPlayerTurn(now: nat) returns (r: Outcome<Error>)
      requires Valid()
      modifies this`currentTurn, state, wall`liveWall, players`tiles, players`drawnTile
      ensures Valid()
      ensures (r, View()) == Cascade.StartPlayerTurn(old(View()), now, Cascade.Current)
      decreases 1, 0
    {
      ghost var t0 := View();
      var p := ActivePlayer();
      if p == null {
        assert Cascade.StartPlayerTurn(t0, now, Cascade.Current) == (Fail(NullReference), t0);
        return Fail(NullReference);
      }
      ghost var i := Cascade.ActiveIndex(t0.seats, t0.currentTurn).value;
      ghost var (d, z) := Dequeue(t0.zones, LiveWallExhausted);
      r := DrawFor(p, i);
      if r.Fail? {
        assert Cascade.StartPlayerTurn(t0, now, Cascade.Current) == (Fail(d.error), t0.(zones := z));
        return;
      }
      ghost var t1 := t0.(zones := z, drawn := t0.drawn[i := Some(d.value)]);
      assert View() == t1;
      assert Cascade.StartPlayerTurn(t0, now, Cascade.Current) ==
             Cascade.SetState(t1, Cascade.WaitingForDiscard, now, Cascade.Current);
      r := SetState(Cascade.WaitingForDiscard, now);
    }

    /** Game.NextTurn: the next wind in play has the turn. */
    method NextTurn(now: nat) returns (r: Outcome<Error>)
      requires Valid()
      modifies this`currentTurn, state, wall`liveWall, players`tiles, players`drawnTile
      ensures Valid()
      ensures (r, View()) == Cascade.NextTurn(old(View()), now, Cascade.Current)
      decreases 2, 0
    {
      ghost var t0 := View();
      currentTurn := NextWind(winds, currentTurn);
      assert View() == t0.(currentTurn := currentTurn);
      r := SetState(Cascade.PlayerTurnBegin, now);
    }

    /** Game.Start: a new game on the wall, the first dora revealed, then
        GameStart and everything it sets off. */
    method Start(choose: seq<nat>, now: nat) returns (r: Outcome<Error>)
      requires Valid() && ValidChoices(choose, TileCount)
      modifies this`currentTurn, state, wall, players`tiles, players`drawnTile
      ensures Valid()
      ensures (r, View()) == Cascade.Start(old(View()), choose, now, Cascade.Current)
    {
      ghost var t0 := View();
      wall.NewGame(choose);
      Cascade.FirstReveal(wall.State(), Cascade.Current);
      var d := wall.RevealDora();
      assert View() == t0.(zones := wall.State());
      r := SetState(Cascade.GameStart, now);
    }

    /** Player.DiscardForTurn on seat i and the tile remembered by
        Game.OnPlayerTileDiscarded. */
    method DiscardFromHand(i: nat, tile: Tile)
      requires Valid() && i < |players|
      modifies this`lastDiscard, players`tiles, players`drawnTile, players`discards
      ensures Valid()
      ensures var t := old(View());
              View() == t.(hands := t.hands[i := HandAfterDiscard(t.hands[i], t.drawn[i], tile)],
                           drawn := t.drawn[i := None], lastDiscard := Some(tile))
      ensures players[i].discards == old(players[i].discards) + [tile]
      ensures forall j :: 0 <= j < |players| && j != i ==> players[j].discards == old(players[j].discards)
    {
      ghost var t0 := View();
      DiscardAt(players, i, players[i], tile);
      assert SeatsOf(players) == t0.seats;
      lastDiscard := Some(tile);
      assert wall.State() == t0.zones;
      assert state.history == t0.history;
      assert Valid();
      assert View() == t0.(hands := HandsOf(players), drawn := DrawnOf(players), lastDiscard := Some(tile));
    }

    /** Player.DiscardForTurn on seat i, then Game.OnPlayerTileDiscarded
        for its OnTileDiscarded event: the tile is remembered and the call
        window opens. */
    method DiscardForTurn(i: nat, tile: Tile, now: nat) returns (r: Outcome<Error>)
      requires Valid() && i < |players|
      modifies this`currentTurn, this`lastDiscard, state, wall`liveWall, players`tiles, players`drawnTile,
               players`discards
      ensures Valid()
      ensures (r, View()) == Cascade.DiscardForTurn(old(View()), i, tile, now, Cascade.Current)
      ensures players[i].discards == old(players[i].discards) + [tile]
      ensures forall j :: 0 <= j < |players| && j != i ==> players[j].discards == old(players[j].discards)
    {
      DiscardFromHand(i, tile);
      r := SetState(Cascade.WaitingForCall, now);
    }

    /** Player.DiscardDrawnTile on seat i and the tile remembered by
        Game.OnPlayerTileDiscarded. */
    method DiscardPending(i: nat) returns (r: Result<Tile, Error>)
      requires Valid() && i < |players|
      modifies this`lastDiscard, players`drawnTile, players`discards
      ensures Valid()
      ensures var t := old(View());
              if t.drawn[i].None? then
                r == Failure(NullReference) && View() == t && players[i].discards == old(players[i].discards)
              else r == Success(t.drawn[i].value) &&
                   View() == t.(drawn := t.drawn[i := None], lastDiscard := Some(r.value)) &&
                   players[i].discards == old(players[i].discards) + [r.value]
      ensures forall j :: 0 <= j < |players| && j != i ==> players[j].discards == old(players[j].discards)
    {
      var p := players[i];
      ghost var t0 := View();
      r := p.DiscardDrawnTile();
      if r.Failure? {
        assert View() == t0;
        return;
      }
      assert DrawnOf(players) == t0.drawn[i := None];
      lastDiscard := Some(r.value);
      assert View() == t0.(drawn := t0.drawn[i := None], lastDiscard := Some(r.value));
    }

    /** Player.DiscardDrawnTile on seat i, then Game.OnPlayerTileDiscarded;
        refused with nothing pending. */
    method DiscardDrawnTile(i: nat, now: nat) returns (r: Outcome<Error>)
      requires Valid() && i < |players|
      modifies this`currentTurn, this`lastDiscard, state, wall`liveWall, players`tiles, players`drawnTile,
               players`discards
      ensures Valid()
      ensures (r, View()) == Cascade.DiscardDrawnTile(old(View()), i, now)
      ensures old(players[i].drawnTile).None? ==> players[i].discards == old(players[i].discards)
      ensures old(players[i].drawnTile).Some? ==>
                players[i].discards == old(players[i].discards) + [old(players[i].drawnTile).value]
      ensures forall j :: 0 <= j < |players| && j != i ==> players[j].discards == old(players[j].discards)
    {
      ghost var t0 := View();
      var d := DiscardPending(i);
      if d.Failure? {
        assert t0.drawn[i].None? && View() == t0;
        return Fail(d.error);
      }
      assert View() == t0.(drawn := t0.drawn[i := None], lastDiscard := Some(t0.drawn[i].value));
      r := SetState(Cascade.WaitingForCall, now);
    }
  }
}
