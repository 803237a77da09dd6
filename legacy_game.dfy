/** The legacy Game: the seats, the legacy wall and the state machine of one
    hand, all fixed by the constructor, driven by Start, RotateWinds and the
    players' discards. Every method is proved to do what the matching
    Cascade function says for the legacy generation. */
module LegacyGames {
  import opened Wrappers
  import opened Errors
  import opened Tiles
  import opened Seats
  import opened Hands
  import opened Walls
  import opened StateMachine
  import opened LegacyPlayers
  import LegacyWalls
  import Cascade

  // HandsOf, DrawnOf, SeatsOf, AssignWinds and Game.ActivePlayer repeat
  // those of Games because the legacy Player is a class of its own; the
  // frames name its fields, so the current engine's versions do not apply.

  /** Each player's hand, in Players order. */
  function HandsOf(ps: seq<Player>): (r: seq<seq<Tile>>)
    reads ps`tiles
    ensures |r| == |ps|
    ensures forall i {:trigger r[i]} :: 0 <= i < |ps| ==> r[i] == ps[i].tiles
  {
    if ps == [] then [] else [ps[0].tiles] + HandsOf(ps[1..])
  }

  /** Each player's pending drawn tile, in Players order. */
  function DrawnOf(ps: seq<Player>): (r: seq<Option<Tile>>)
    reads ps`drawnTile
    ensures |r| == |ps|
    ensures forall i {:trigger r[i]} :: 0 <= i < |ps| ==> r[i] == ps[i].drawnTile
  {
    if ps == [] then [] else [ps[0].drawnTile] + DrawnOf(ps[1..])
  }

  /** Each player's seat wind, in Players order. */
  function SeatsOf(ps: seq<Player>): (r: seq<Wind>)
    reads ps`wind
    ensures |r| == |ps|
    ensures forall i {:trigger r[i]} :: 0 <= i < |ps| ==> r[i] == ps[i].wind
  {
    if ps == [] then [] else [ps[0].wind] + SeatsOf(ps[1..])
  }

  /** C#'s % 4 on int: division truncates toward zero, so the remainder is
      the one with the dividend's sign. */
  function CsRem4(a: int): (r: int)
    ensures (a - r) % 4 == 0
    ensures a >= 0 ==> 0 <= r < 4
    ensures a < 0 ==> -4 < r <= 0
  {
    if a >= 0 then a % 4 else -((-a) % 4)
  }

  /** The remainder is negative exactly for a negative dividend that is no
      multiple of four; otherwise it is the Euclidean one. */
  lemma CsRem4Negative(a: int)
    ensures CsRem4(a) < 0 <==> a < 0 && a % 4 != 0
    ensures CsRem4(a) >= 0 ==> CsRem4(a) == a % 4
  {
  }

  /** The first seat's wind in the legacy constructor: the prevalent wind
      plus turn - 1, reduced by C#'s % over the four winds and cast back to
      WindDirection; a negative remainder names no wind. */
  function StartWind(wind: Wind, turn: int): (r: Option<Wind>)
    ensures r.Some? <==> CsRem4(WindValue(wind) + turn - 1) >= 0
    ensures r.Some? ==> WindValue(r.value) == CsRem4(WindValue(wind) + turn - 1)
  {
    var x := CsRem4(WindValue(wind) + turn - 1);
    if x >= 0 then Some(WindOf(x)) else None
  }

  /** Turn 1 starts the seating at the prevalent wind. */
  lemma StartWindFirstTurn(wind: Wind)
    ensures StartWind(wind, 1) == Some(wind)
  {
    assert CsRem4(WindValue(wind)) == WindValue(wind);
  }

  /** From turn 1 on the start is defined, and each further turn starts
      the seating one wind later, round all four winds. */
  lemma StartWindTurns(wind: Wind, turn: int)
    requires turn >= 1
    ensures StartWind(wind, turn).Some? && StartWind(wind, turn + 1).Some?
    ensures StartWind(wind, turn + 1).value == NextWind(FirstWinds(4), StartWind(wind, turn).value)
  {
    var x := WindValue(wind) + turn - 1;
    var k := x % 4;
    var k' := if k + 1 < 4 then k + 1 else 0;
    assert CsRem4(x) == k && CsRem4(x + 1) == k';
    assert StartWind(wind, turn) == Some(WindOf(k)) && StartWind(wind, turn + 1) == Some(WindOf(k'));
    assert WindOf(k) == FirstWinds(4)[k] && WindOf(k') == FirstWinds(4)[k'];
    NextFirstWind(4, k);
  }

  /** Enumerable.Range(0, n).Select(index => new Player(Wall, index)): n
      fresh players on the wall, the index standing in for the wind
      argument, so player j starts with the j-th wind. */
  method NewPlayers(wall: LegacyWalls.Wall, n: nat) returns (ps: seq<Player>)
    requires n <= 4
    ensures |ps| == n
    ensures forall j :: 0 <= j < n ==> fresh(ps[j])
    ensures forall i, j :: 0 <= i < j < n ==> ps[i] != ps[j]
    ensures forall j :: 0 <= j < n ==> ps[j].wall == wall
    ensures forall j :: 0 <= j < n ==> ps[j].wind == FirstWinds(n)[j] && ps[j].tiles == [] && ps[j].drawnTile == None
  {
    ps := [];
    var k := 0;
    while k < n
      invariant 0 <= k <= n && |ps| == k
      invariant forall i, j :: 0 <= i < j < k ==> ps[i] != ps[j]
      invariant forall j :: 0 <= j < k ==>
                  fresh(ps[j]) && ps[j].wall == wall && ps[j].wind == FirstWinds(n)[j] &&
                  ps[j].tiles == [] && ps[j].drawnTile == None
    {
      var p := new Player(wall, FirstWinds(n)[k]);
      ps := ps + [p];
      k := k + 1;
    }
  }

  /** The foreach over Players in the constructor: the first player takes
      start and each next one the wind after its predecessor's. */
  method AssignWinds(ps: seq<Player>, winds: seq<Wind>, start: Wind)
    requires forall i, j :: 0 <= i < j < |ps| ==> ps[i] != ps[j]
    modifies ps`wind
    ensures SeatsOf(ps) == Rotation(winds, start, |ps|)
  {
    ghost var seats := Rotation(winds, start, |ps|);
    var w := start;
    var k := 0;
    while k < |ps|
      invariant 0 <= k <= |ps|
      invariant k < |ps| ==> w == seats[k]
      invariant forall j :: 0 <= j < k ==> ps[j].wind == seats[j]
    {
      ps[k].wind := w;
      if k + 1 < |ps| {
        RotationStep(winds, start, |ps|, k + 1);
      }
      w := NextWind(winds, w);
      k := k + 1;
    }
    assert forall j :: 0 <= j < |ps| ==> SeatsOf(ps)[j] == seats[j];
  }

  /** The players the constructor creates and seats: fresh, distinct, on
      the wall, empty-handed, with the winds of n consecutive seats from
      start. */
  method NewSeats(wall: LegacyWalls.Wall, n: nat, start: Wind) returns (ps: seq<Player>)
    requires 2 <= n <= 4
    ensures |ps| == n
    ensures forall j :: 0 <= j < n ==> fresh(ps[j])
    ensures forall i, j :: 0 <= i < j < n ==> ps[i] != ps[j]
    ensures forall j :: 0 <= j < n ==> ps[j].wall == wall && ps[j].tiles == [] && ps[j].drawnTile == None
    ensures SeatsOf(ps) == Rotation(FirstWinds(n), start, n)
  {
    ps := NewPlayers(wall, n);
    AssignWinds(ps, FirstWinds(n), start);
  }

  class Game {
    const wall: LegacyWalls.Wall
    const mode: GameMode
    const currentWind: Wind
    const turn: int
    const repeat: int
    const state: Fsm<Cascade.GameState>
    const players: seq<Player>
    /** Game._winds: the winds in play. */
    const winds: seq<Wind>
    var currentTurn: Wind

    /** A state machine, two to four seats over one shared wall, each its
        own object, and the winds in play in enum order. The seat winds
        need not be the winds in play: see LegacySeating. */
    ghost predicate Valid()
      reads state
    {
      state.Valid() &&
      2 <= |winds| <= 4 && winds == FirstWinds(|winds|) &&
      |players| == |winds| &&
      (forall i, j :: 0 <= i < j < |players| ==> players[i] != players[j]) &&
      (forall i :: 0 <= i < |players| ==> players[i].wall == wall)
    }

    /** The board as a Cascade table; the legacy game keeps no last
        discard. */
    function View(): Cascade.Table
      reads this, wall, state, players`tiles, players`drawnTile, players`wind
    {
      Cascade.Table(wall.State(), HandsOf(players), DrawnOf(players), SeatsOf(players),
                    winds, currentTurn, None, state.history)
    }

    /** Game(mode, wind, turn, repeat): the mode's winds in play, one
        player per wind on a new empty wall, the seats given winds
        cyclically from StartWind, and the state machine in
        WaitingToStart. */
    constructor (mode: GameMode, wind: Wind, turn: int, repeat: int, now: nat)
      requires StartWind(wind, turn).Some?
      ensures this.mode == mode && currentWind == wind && this.turn == turn && this.repeat == repeat
      ensures Valid() && |winds| == PlayersForMode(ModeValue(mode)).value && currentTurn == East
      ensures SeatsOf(players) == Rotation(winds, StartWind(wind, turn).value, |winds|)
      ensures forall i :: 0 <= i < |players| ==> players[i].tiles == [] && players[i].drawnTile == None
      ensures wall.State() == Zones([], [], [], 0)
      ensures state.history == [Transition(Cascade.WaitingToStart, now)]
      ensures fresh(wall) && fresh(state)
      ensures forall i :: 0 <= i < |players| ==> fresh(players[i])
    {
      var n := PlayersForMode(ModeValue(mode)).value;
      var w := new LegacyWalls.Wall();
      var fsm := new Fsm<Cascade.GameState>(Cascade.WaitingToStart, now);
      var ws := FirstWinds(n);
      var ps := NewSeats(w, n, StartWind(wind, turn).value);
      assert fsm.Valid() && 2 <= n <= 4 && |ws| == |ps| == n && ws == FirstWinds(|ws|);
      this.mode, currentWind, this.turn, this.repeat, wall, state, winds, players, currentTurn :=
        mode, wind, turn, repeat, w, fsm, ws, ps, East;
    }

    /** Game.ActivePlayer, Players.Find(player => player.Wind == CurrentTurn):
        the first seat holding the current turn's wind, null when none
        does. */
    function ActivePlayer(): (p: Player?)
      reads this, players`wind
      ensures p == null <==> currentTurn !in SeatsOf(players)
      ensures p != null ==> p == players[Cascade.ActiveIndex(SeatsOf(players), currentTurn).value]
      ensures p != null ==> p in players && p.wind == currentTurn
    {
      var k := Cascade.ActiveIndex(SeatsOf(players), currentTurn);
      if k.None? then null else players[k.value]
    }

    /** FSM.Set on the game's state machine, the state-changed handler run
        when the state changes. */
    method SetState(s: Cascade.GameState, now: nat) returns (r: Outcome<Error>)
      requires Valid()
      modifies this`currentTurn, state, wall`liveWall, players`tiles, players`drawnTile
      ensures Valid()
      ensures (r, View()) == Cascade.SetState(old(View()), s, now, Cascade.Legacy)
      decreases Cascade.Rank(s), 2
    {
      var notified := state.Set(s, now);
      if notified.None? {
        return Pass;
      }
      r := OnStateChanged(s, now);
    }

    /** Game.OnStateChanged. */
    method OnStateChanged(s: Cascade.GameState, now: nat) returns (r: Outcome<Error>)
      requires Valid()
      modifies this`currentTurn, state, wall`liveWall, players`tiles, players`drawnTile
      ensures Valid()
      ensures (r, View()) == Cascade.OnStateChanged(old(View()), s, now, Cascade.Legacy)
      decreases Cascade.Rank(s), 1
    {
      match s
      case GameStart =>
        r := SetupBoard(now);
      case PlayerTurnBegin =>
        r := StartPlayerTurn(now);
      case WaitingForCall =>
        if CheckValidCalls() {
          r := Pass;
        } else {
          r := NextTurn(now);
        }
      case _ =>
        r := Pass;
    }

    /** Game.CheckValidCalls: the legacy call window, which never waits. */
    function CheckValidCalls(): (waits: bool)
      requires Valid()
      reads this, wall, state, players`tiles, players`drawnTile, players`wind
      ensures waits == Cascade.Waits(View(), Cascade.Legacy)
    {
      false
    }

    /** Player.DrawStartingHand on the k-th seat. */
    method DealTo(k: nat) returns (r: Outcome<Error>)
      requires Valid() && k < |players|
      modifies wall`liveWall, players`tiles
      ensures Valid()
      ensures var t := old(View());
              var (d, z) := Cascade.DrawHand(t.zones, Cascade.Legacy);
              if d.Failure? then r == Fail(d.error) && View() == t.(zones := z)
              else r == Pass && View() == t.(zones := z, hands := t.hands[k := d.value])
    {
      ghost var t0 := View();
      var p := players[k];
      r := p.DrawStartingHand();
      assert SeatsOf(players) == t0.seats && DrawnOf(players) == t0.drawn;
      if r.Fail? {
        assert HandsOf(players) == t0.hands;
        return;
      }
      assert HandsOf(players) == t0.hands[k := p.tiles];
    }

    /** Players.ForEach(player => player.DrawStartingHand()): the players
        draw their hands in Players order, the first failure ending the
        deal. */
    method DealHands() returns (r: Outcome<Error>)
      requires Valid()
      modifies wall`liveWall, players`tiles
      ensures Valid()
      ensures var (d, z, hands) := Cascade.DealFrom(old(View()).zones, old(View()).hands, 0, Cascade.Legacy);
              r == d && View() == old(View()).(zones := z, hands := hands)
    {
      ghost var t0 := View();
      var k := 0;
      while k < |players|
        invariant 0 <= k <= |players|
        invariant View() == t0.(zones := View().zones, hands := View().hands)
        invariant Cascade.DealFrom(View().zones, View().hands, k, Cascade.Legacy) ==
                  Cascade.DealFrom(t0.zones, t0.hands, 0, Cascade.Legacy)
      {
        r := DealTo(k);
        if r.Fail? {
          return;
        }
        k := k + 1;
      }
      r := Pass;
    }

    /** Game.SetupBoard: every player draws a starting hand in turn, then
        East's turn begins. */
    method SetupBoard(now: nat) returns (r: Outcome<Error>)
      requires Valid()
      modifies this`currentTurn, state, wall`liveWall, players`tiles, players`drawnTile
      ensures Valid()
      ensures (r, View()) == Cascade.SetupBoard(old(View()), now, Cascade.Legacy)
      decreases 2, 0
    {
      r := DealHands();
      if r.Fail? {
        return;
      }
      ghost var t1 := View();
      currentTurn := East;
      assert View() == t1.(currentTurn := East);
      r := SetState(Cascade.PlayerTurnBegin, now);
    }

    /** Player.DrawTile on the i-th seat. */
    method DrawFor(p: Player, ghost i: nat) returns (r: Outcome<Error>)
      requires Valid() && i < |players| && p == players[i]
      modifies p`drawnTile, wall`liveWall
      ensures Valid()
      ensures var (d, z) := LegacyWalls.DrawStep(old(View()).zones);
              if d.Failure? then r == Fail(d.error) && View() == old(View()).(zones := z)
              else r == Pass && View() == old(View()).(zones := z, drawn := old(View()).drawn[i := Some(d.value)])
    {
      ghost var t0 := View();
      r := p.DrawTile();
      if r.Fail? {
        assert View() == t0.(zones := wall.State());
        return;
      }
      assert DrawnOf(players) == t0.drawn[i := p.drawnTile];
      assert View() == t0.(zones := wall.State(), drawn := t0.drawn[i := p.drawnTile]);
    }

    /** Game.StartPlayerTurn: the first seat holding the turn's wind draws
        (none holding it is a null dereference), then the game waits for a
        discard. */
    method StartPlayerTurn(now: nat) returns (r: Outcome<Error>)
      requires Valid()
      modifies this`currentTurn, state, wall`liveWall, players`tiles, players`drawnTile
      ensures Valid()
      ensures (r, View()) == Cascade.StartPlayerTurn(old(View()), now, Cascade.Legacy)
      decreases 1, 0
    {
      ghost var t0 := View();
      var p := ActivePlayer();
      if p == null {
        assert Cascade.StartPlayerTurn(t0, now, Cascade.Legacy) == (Fail(NullReference), t0);
        return Fail(NullReference);
      }
      ghost var i := Cascade.ActiveIndex(t0.seats, t0.currentTurn).value;
      ghost var (d, z) := LegacyWalls.DrawStep(t0.zones);
      r := DrawFor(p, i);
      if r.Fail? {
        assert Cascade.StartPlayerTurn(t0, now, Cascade.Legacy) == (Fail(d.error), t0.(zones := z));
        return;
      }
      ghost var t1 := t0.(zones := z, drawn := t0.drawn[i := Some(d.value)]);
      assert View() == t1;
      assert Cascade.StartPlayerTurn(t0, now, Cascade.Legacy) ==
             Cascade.SetState(t1, Cascade.WaitingForDiscard, now, Cascade.Legacy);
      r := SetState(Cascade.WaitingForDiscard, now);
    }

    /** Game.NextTurn: the next wind in play has the turn. */
    method NextTurn(now: nat) returns (r: Outcome<Error>)
      requires Valid()
      modifies this`currentTurn, state, wall`liveWall, players`tiles, players`drawnTile
      ensures Valid()
      ensures (r, View()) == Cascade.NextTurn(old(View()), now, Cascade.Legacy)
      decreases 2, 0
    {
      ghost var t0 := View();
      currentTurn := NextWind(winds, currentTurn);
      assert View() == t0.(currentTurn := currentTurn);
      r := SetState(Cascade.PlayerTurnBegin, now);
    }

    /** Game.Start: a new game on the wall, the first dora revealed, then
        GameStart and everything it sets off. */
    method Start(choose: seq<nat>, now: nat) returns (r: Outcome<Error>)
      requires Valid() && ValidChoices(choose, TileCount)
      modifies this`currentTurn, state, wall, players`tiles, players`drawnTile
      ensures Valid()
      ensures (r, View()) == Cascade.Start(old(View()), choose, now, Cascade.Legacy)
    {
      ghost var t0 := View();
      wall.NewGame(choose);
      Cascade.FirstReveal(wall.State(), Cascade.Legacy);
      var d := wall.RevealDora();
      assert View() == t0.(zones := wall.State());
      r := SetState(Cascade.GameStart, now);
    }

    /** Game.RotateWinds: every player's wind becomes the next wind in
        play, nothing else changing. */
    method RotateWinds()
      requires Valid()
      modifies players`wind
      ensures Valid()
      ensures SeatsOf(players) == Rotated(winds, old(SeatsOf(players)))
    {
      ghost var before := SeatsOf(players);
      var k := 0;
      while k < |players|
        invariant 0 <= k <= |players|
        invariant forall j :: 0 <= j < k ==> players[j].wind == NextWind(winds, before[j])
        invariant forall j :: k <= j < |players| ==> players[j].wind == before[j]
      {
        var p := players[k];
        p.wind := NextWind(winds, p.wind);
        k := k + 1;
      }
      RotatedPointwise(winds, before, SeatsOf(players));
    }

    /** Player.DiscardForTurn on seat i. */
    method DiscardFromHand(i: nat, tile: Tile)
      requires Valid() && i < |players|
      modifies players`tiles, players`drawnTile
      ensures Valid()
      ensures var t := old(View());
              View() == t.(hands := t.hands[i := HandAfterDiscard(t.hands[i], t.drawn[i], tile)],
                           drawn := t.drawn[i := None])
    {
      var p := players[i];
      ghost var t0 := View();
      p.DiscardForTurn(tile);
      assert HandsOf(players) == t0.hands[i := p.tiles];
      assert DrawnOf(players) == t0.drawn[i := None];
      assert SeatsOf(players) == t0.seats;
    }

    /** Player.DiscardForTurn on seat i, then Game.OnPlayerTileDiscarded:
        the call window opens, and since it never waits the turn passes
        on. */
    method DiscardForTurn(i: nat, tile: Tile, now: nat) returns (r: Outcome<Error>)
      requires Valid() && i < |players|
      modifies this`currentTurn, state, wall`liveWall, players`tiles, players`drawnTile
      ensures Valid()
      ensures (r, View()) == Cascade.DiscardForTurn(old(View()), i, tile, now, Cascade.Legacy)
    {
      DiscardFromHand(i, tile);
      r := SetState(Cascade.WaitingForCall, now);
    }
  }

  /** Seats each holding the wind after one of before's hold Rotated. */
  lemma RotatedPointwise(winds: seq<Wind>, before: seq<Wind>, after: seq<Wind>)
    requires |after| == |before|
    requires forall j :: 0 <= j < |after| ==> after[j] == NextWind(winds, before[j])
    ensures after == Rotated(winds, before)
  {
  }

  /** Every constructed legacy game seats the winds in play once each
      exactly when StartWind is one of them; a start outside them (West
      or North with two players, North with three) leaves the last wind in
      play unheld, so Game.ActivePlayer is null once its turn comes. */
  lemma ConstructedSeating(mode: GameMode, wind: Wind, turn: int)
    requires StartWind(wind, turn).Some?
    ensures var n := PlayersForMode(ModeValue(mode)).value;
            var seats := Rotation(FirstWinds(n), StartWind(wind, turn).value, n);
            (IsSeating(seats, FirstWinds(n)) <==> WindValue(StartWind(wind, turn).value) < n) &&
            (WindValue(StartWind(wind, turn).value) >= n ==> FirstWinds(n)[n - 1] !in seats)
  {
    LegacySeating(PlayersForMode(ModeValue(mode)).value, StartWind(wind, turn).value);
  }

  /** The four-player legacy game always seats every wind once. */
  lemma RiichiSeating(wind: Wind, turn: int)
    requires StartWind(wind, turn).Some?
    ensures IsSeating(Rotation(FirstWinds(4), StartWind(wind, turn).value, 4), FirstWinds(4))
  {
    LegacySeating(4, StartWind(wind, turn).value);
  }
}
