/** The game's phase cascade as values: what Setup, Start, a discard and
    every state change do to a snapshot of the board. A state change runs
    its handler before FSM.Set returns, and the handlers set further states,
    so one public call runs a whole chain; a thrown exception ends the chain
    where it is raised, the changes made before it kept. Both engine
    generations share the chain and differ in the draw error, the dora
    reveal and the call window. */
module Cascade {
  import opened Wrappers
  import opened Errors
  import opened Tiles
  import opened Seats
  import opened Hands
  import opened Walls
  import opened StateMachine
  import LegacyWalls

  /** Game.GameState. */
  datatype GameState =
    | WaitingToStart
    | GameStart
    | PlayerTurnBegin
    | WaitingForDiscard
    | WaitingForCall
    | PlayerWon
    | ExhaustiveDraw

  /** The current engine (MahjongLib) or the legacy one (Mahjong). */
  datatype Generation = Current | Legacy

  /** What a draw from an empty live wall raises. */
  function Exhausted(gen: Generation): Error
  {
    if gen == Current then LiveWallExhausted else InvalidOperation
  }

  /** A snapshot of a game: the wall's zones, each seat's hand, pending
      drawn tile and wind (in Players order), the winds in play, whose turn
      it is, the last discard and the state history. */
  datatype Table = Table(
    zones: Zones,
    hands: seq<seq<Tile>>,
    drawn: seq<Option<Tile>>,
    seats: seq<Wind>,
    winds: seq<Wind>,
    currentTurn: Wind,
    lastDiscard: Option<Tile>,
    history: seq<Transition<GameState>>)

  /** One hand, pending tile and wind per seat, some wind in play and a
      history to read the current state from. */
  predicate Shaped(t: Table)
  {
    |t.hands| == |t.seats| && |t.drawn| == |t.seats| && |t.winds| > 0 && |t.history| > 0
  }

  /** FSM.Current: the last recorded state. */
  function StateOf(t: Table): GameState
    requires |t.history| > 0
  {
    t.history[|t.history| - 1].state
  }

  /** The seat Players.Find(p => p.Wind == w) picks: the first one holding
      w, or none (a null player). */
  function ActiveIndex(seats: seq<Wind>, w: Wind): (r: Option<nat>)
    ensures r.None? <==> w !in seats
    ensures r.Some? ==> r.value < |seats| && seats[r.value] == w
  {
    if w in seats then Some(IndexOf(seats, w)) else None
  }

  /** With the seats holding the winds in play once each, every wind in
      play is held by exactly one seat (Game.ActivePlayer is never null
      while CurrentTurn is in play). */
  lemma ActiveUnique(seats: seq<Wind>, winds: seq<Wind>, w: Wind)
    requires IsSeating(seats, winds) && w in winds
    ensures ActiveIndex(seats, w).Some?
    ensures forall j :: 0 <= j < |seats| && seats[j] == w ==> j == ActiveIndex(seats, w).value
  {
    SeatingCovers(seats, winds, w);
  }

  /** The number of nested state changes a state can still set off; it
      bounds the re-entry through FSM.Set. */
  function Rank(s: GameState): nat
  {
    match s
    case GameStart => 2
    case WaitingForCall => 2
    case PlayerTurnBegin => 1
    case _ => 0
  }

  /** Player.DrawStartingHand on a wall: the next thirteen tiles of the
      live wall, or the draw error with the live wall drawn dry. */
  function DrawHand(z: Zones, gen: Generation): (Result<seq<Tile>, Error>, Zones)
  {
    if HandSize <= |z.live| then (Success(z.live[..HandSize]), z.(live := z.live[HandSize..]))
    else (Failure(Exhausted(gen)), z.(live := []))
  }

  /** DrawHand is the thirteen single draws a starting hand is made of. */
  lemma DrawHandIsDrawN(z: Zones, gen: Generation)
    ensures DrawHand(z, gen) == DrawN(z, HandSize, Exhausted(gen))
  {
    DrawNTakesPrefix(z, HandSize, Exhausted(gen));
  }

  /** Players.ForEach(p => p.DrawStartingHand()) from seat k on: thirteen
      draws per seat, the first failure ending the deal with the hands
      dealt so far. */
  function DealFrom(z: Zones, hands: seq<seq<Tile>>, k: nat, gen: Generation): (r: (Outcome<Error>, Zones, seq<seq<Tile>>))
    requires k <= |hands|
    ensures |r.2| == |hands|
    decreases |hands| - k
  {
    if k == |hands| then (Pass, z, hands)
    else
      var (d, z1) := DrawHand(z, gen);
      if d.Failure? then (Fail(d.error), z1, hands)
      else DealFrom(z1, hands[k := d.value], k + 1, gen)
  }

  /** FSM.Set(s): nothing when s is current; otherwise s is recorded and
      the Game's OnStateChanged handler runs on it. */
  function SetState(t: Table, s: GameState, now: nat, gen: Generation): (Outcome<Error>, Table)
    requires Shaped(t)
    decreases Rank(s), 2
  {
    if StateOf(t) == s then (Pass, t)
    else OnStateChanged(t.(history := Recorded(t.history, s, now)), s, now, gen)
  }

  /** Game.OnStateChanged: GameStart sets up the board, PlayerTurnBegin
      starts the turn, WaitingForCall moves on unless some seat can call;
      every other state (PlayerWon and ExhaustiveDraw included) does
      nothing. */
  function OnStateChanged(t: Table, s: GameState, now: nat, gen: Generation): (Outcome<Error>, Table)
    requires Shaped(t)
    decreases Rank(s), 1
  {
    match s
    case GameStart => SetupBoard(t, now, gen)
    case PlayerTurnBegin => StartPlayerTurn(t, now, gen)
    case WaitingForCall => if Waits(t, gen) then (Pass, t) else NextTurn(t, now, gen)
    case _ => (Pass, t)
  }

  /** Game.SetupBoard: every seat draws its starting hand, East has the
      turn, and the turn begins. */
  function SetupBoard(t: Table, now: nat, gen: Generation): (Outcome<Error>, Table)
    requires Shaped(t)
    decreases 2, 0
  {
    var (r, z, hands) := DealFrom(t.zones, t.hands, 0, gen);
    var t1 := t.(zones := z, hands := hands);
    if r.Fail? then (r, t1)
    else SetState(t1.(currentTurn := East), PlayerTurnBegin, now, gen)
  }

  /** Game.StartPlayerTurn: the seat whose wind has the turn draws (none
      holding it is a null dereference), then the game waits for its
      discard. */
  function StartPlayerTurn(t: Table, now: nat, gen: Generation): (Outcome<Error>, Table)
    requires Shaped(t)
    decreases 1, 0
  {
    var p := ActiveIndex(t.seats, t.currentTurn);
    if p.None? then (Fail(NullReference), t)
    else
      var (d, z) := Dequeue(t.zones, Exhausted(gen));
      if d.Failure? then (Fail(d.error), t.(zones := z))
      else SetState(t.(zones := z, drawn := t.drawn[p.value := Some(d.value)]), WaitingForDiscard, now, gen)
  }

  /** Game.NextTurn: the turn passes to the next wind in play. */
  function NextTurn(t: Table, now: nat, gen: Generation): (Outcome<Error>, Table)
    requires Shaped(t)
    decreases 2, 0
  {
    SetState(t.(currentTurn := NextWind(t.winds, t.currentTurn)), PlayerTurnBegin, now, gen)
  }

  /** The call window. The current engine asks every seat, the discarder
      included, for its ValidCalls on the last discard with CurrentTurn as
      the source; the legacy CheckValidCalls always answers no. */
  predicate Waits(t: Table, gen: Generation)
    requires Shaped(t)
  {
    gen == Current && t.lastDiscard.Some? &&
    exists i :: 0 <= i < |t.hands| &&
      ValidCalls(t.hands[i], t.seats[i], t.winds, t.lastDiscard.value, t.currentTurn) != []
  }

  /** Game.OnPlayerTileDiscarded: the current engine remembers the tile;
      both set WaitingForCall. */
  function Discarded(t: Table, tile: Tile, now: nat, gen: Generation): (Outcome<Error>, Table)
    requires Shaped(t)
  {
    var t1 := if gen == Current then t.(lastDiscard := Some(tile)) else t;
    SetState(t1, WaitingForCall, now, gen)
  }

  /** Player.DiscardForTurn at seat i, then its discard handler. */
  function DiscardForTurn(t: Table, i: nat, tile: Tile, now: nat, gen: Generation): (Outcome<Error>, Table)
    requires Shaped(t) && i < |t.hands|
  {
    var t1 := t.(hands := t.hands[i := HandAfterDiscard(t.hands[i], t.drawn[i], tile)],
                 drawn := t.drawn[i := None]);
    Discarded(t1, tile, now, gen)
  }

  /** Player.DiscardDrawnTile at seat i, then its discard handler; refused
      when the seat has no pending tile. */
  function DiscardDrawnTile(t: Table, i: nat, now: nat): (Outcome<Error>, Table)
    requires Shaped(t) && i < |t.hands|
  {
    if t.drawn[i].None? then (Fail(NullReference), t)
    else Discarded(t.(drawn := t.drawn[i := None]), t.drawn[i].value, now, Current)
  }

  /** The dora reveal of each generation's wall. */
  function Reveal(z: Zones, gen: Generation): (Result<Tile, Error>, Zones)
  {
    if gen == Current then RevealDoraStep(z) else LegacyWalls.RevealStep(z)
  }

  /** Game.Start: a new game on the wall, one dora revealed, then
      GameStart. */
  function Start(t: Table, choose: seq<nat>, now: nat, gen: Generation): (Outcome<Error>, Table)
    requires Shaped(t) && ValidChoices(choose, TileCount)
  {
    var (d, z) := Reveal(NewGameZones(choose), gen);
    if d.Failure? then (Fail(d.error), t.(zones := z))
    else SetState(t.(zones := z), GameStart, now, gen)
  }

  // ---------------------------------------------------------------------
  // What the cascade does
  // ---------------------------------------------------------------------

  /** The starting hands of m seats dealt from a live wall: thirteen tiles
      each, in draw order. */
  function Blocks(live: seq<Tile>, m: nat): (r: seq<seq<Tile>>)
    requires HandSize * m <= |live|
    ensures |r| == m
  {
    seq(m, j requires 0 <= j < m => live[HandSize * j..HandSize * j + HandSize])
  }

  /** The first seat takes the first thirteen tiles, the others deal from
      the rest. */
  lemma BlocksCons(live: seq<Tile>, m: nat)
    requires 0 < m && HandSize * m <= |live|
    ensures Blocks(live, m) == [live[..HandSize]] + Blocks(live[HandSize..], m - 1)
  {
    var rest := live[HandSize..];
    var r := [live[..HandSize]] + Blocks(rest, m - 1);
    forall i | 0 <= i < m
      ensures Blocks(live, m)[i] == r[i]
    {
      if i > 0 {
        assert rest[HandSize * (i - 1)..HandSize * (i - 1) + HandSize] == live[HandSize * i..HandSize * i + HandSize];
      }
    }
  }

  /** Dealing from seat k on with enough tiles: every later seat gets its
      block of thirteen in draw order, earlier seats keep their hands, and
      the live wall loses exactly the dealt tiles. */
  lemma {:induction false} DealFromDeals(z: Zones, hands: seq<seq<Tile>>, k: nat, gen: Generation)
    requires k <= |hands| && HandSize * (|hands| - k) <= |z.live|
    ensures var m := |hands| - k;
            DealFrom(z, hands, k, gen) ==
              (Pass, z.(live := z.live[HandSize * m..]), hands[..k] + Blocks(z.live, m))
    decreases |hands| - k
  {
    var n := |hands|;
    var live := z.live;
    if k == n {
      assert hands[..k] + Blocks(live, 0) == hands;
    } else {
      var rest := live[HandSize..];
      var hands1 := hands[k := live[..HandSize]];
      assert DealFrom(z, hands, k, gen) == DealFrom(z.(live := rest), hands1, k + 1, gen);
      DealFromDeals(z.(live := rest), hands1, k + 1, gen);
      assert rest[HandSize * (n - k - 1)..] == live[HandSize * (n - k)..];
      calc {
        hands1[..k + 1] + Blocks(rest, n - k - 1);
        { assert hands1[..k + 1] == hands[..k] + [live[..HandSize]]; }
        hands[..k] + [live[..HandSize]] + Blocks(rest, n - k - 1);
        { BlocksCons(live, n - k); }
        hands[..k] + Blocks(live, n - k);
      }
    }
  }

  /** Dealing from seat k on without enough tiles: the seats that can be
      served get their blocks, the next seat's draws run the live wall dry
      and the deal stops there with the draw error, that seat and the later
      ones keeping their hands. */
  lemma {:induction false} DealFromExhausts(z: Zones, hands: seq<seq<Tile>>, k: nat, gen: Generation)
    requires k <= |hands| && HandSize * (|hands| - k) > |z.live|
    ensures var m := |z.live| / HandSize;
            k + m < |hands| &&
            DealFrom(z, hands, k, gen) ==
              (Fail(Exhausted(gen)), z.(live := []), hands[..k] + Blocks(z.live, m) + hands[k + m..])
    decreases |hands| - k
  {
    var live := z.live;
    var m := |live| / HandSize;
    if |live| < HandSize {
      assert m == 0;
      assert hands[..k] + Blocks(live, 0) + hands[k..] == hands;
    } else {
      var rest := live[HandSize..];
      var hands1 := hands[k := live[..HandSize]];
      assert DealFrom(z, hands, k, gen) == DealFrom(z.(live := rest), hands1, k + 1, gen);
      DealFromExhausts(z.(live := rest), hands1, k + 1, gen);
      assert |rest| / HandSize == m - 1;
      calc {
        hands1[..k + 1] + Blocks(rest, m - 1) + hands1[k + 1 + (m - 1)..];
        { assert hands1[..k + 1] == hands[..k] + [live[..HandSize]];
          assert hands1[k + 1 + (m - 1)..] == hands[k + m..]; }
        hands[..k] + [live[..HandSize]] + Blocks(rest, m - 1) + hands[k + m..];
        { BlocksCons(live, m); }
        hands[..k] + Blocks(live, m) + hands[k + m..];
      }
    }
  }

  /** Game.StartPlayerTurn once PlayerTurnBegin is recorded: the seat
      holding the turn's wind takes the head of the live wall as its
      pending tile and the game waits for its discard; an empty live wall
      or a wind no seat holds ends the chain with the error, and only the
      drawn-from wall is kept. */
  lemma StartPlayerTurnOutcome(t: Table, now: nat, gen: Generation)
    requires Shaped(t) && StateOf(t) == PlayerTurnBegin
    ensures var p := ActiveIndex(t.seats, t.currentTurn);
            StartPlayerTurn(t, now, gen) ==
              if p.None? then (Fail(NullReference), t)
              else if !t.zones.CanDraw() then (Fail(Exhausted(gen)), t)
              else (Pass, t.(zones := t.zones.(live := t.zones.live[1..]),
                             drawn := t.drawn[p.value := Some(t.zones.live[0])],
                             history := t.history + [Transition(WaitingForDiscard, now)]))
  {
  }

  /** Game.SetupBoard from GameStart with a tile left over once every
      seat has its hand: seat j holds the j-th block of thirteen, East has
      the turn and PlayerTurnBegin is recorded, after which East's turn
      starts as StartPlayerTurnOutcome says. */
  lemma SetupBoardDeals(t: Table, now: nat, gen: Generation)
    requires Shaped(t) && StateOf(t) == GameStart
    requires HandSize * |t.hands| < |t.zones.live|
    ensures var n := |t.hands|;
            var live := t.zones.live;
            SetupBoard(t, now, gen) ==
              StartPlayerTurn(t.(zones := t.zones.(live := live[HandSize * n..]),
                                 hands := Blocks(live, n),
                                 currentTurn := East,
                                 history := t.history + [Transition(PlayerTurnBegin, now)]), now, gen)
  {
    var n := |t.hands|;
    var live := t.zones.live;
    DealFromDeals(t.zones, t.hands, 0, gen);
    assert t.hands[..0] + Blocks(live, n) == Blocks(live, n);
    var t1 := t.(zones := t.zones.(live := live[HandSize * n..]), hands := Blocks(live, n), currentTurn := East);
    assert SetupBoard(t, now, gen) == SetState(t1, PlayerTurnBegin, now, gen);
    assert Recorded(t1.history, PlayerTurnBegin, now) == t.history + [Transition(PlayerTurnBegin, now)];
  }

  /** Game.SetupBoard from GameStart when the live wall cannot fill every
      hand: the deal stops on the exhausted wall and the turn never
      begins. */
  lemma SetupBoardExhausts(t: Table, now: nat, gen: Generation)
    requires Shaped(t) && StateOf(t) == GameStart
    requires HandSize * |t.hands| > |t.zones.live|
    ensures SetupBoard(t, now, gen).0 == Fail(Exhausted(gen))
    ensures SetupBoard(t, now, gen).1.zones.live == []
    ensures SetupBoard(t, now, gen).1.history == t.history
  {
    DealFromExhausts(t.zones, t.hands, 0, gen);
  }

  /** The zones a new game starts from. */
  lemma FreshZones(choose: seq<nat>)
    requires ValidChoices(choose, TileCount)
    ensures var z := NewGameZones(choose);
            |z.dora| == DoraCount && |z.live| == 122 && z.revealed == 0
  {
    DealLayout(ShuffledSet(choose));
  }

  /** The first reveal on a new game's dead wall succeeds in both
      generations and shows the first dora indicator. */
  lemma FirstReveal(z: Zones, gen: Generation)
    requires |z.dora| == DoraCount && z.revealed == 0
    ensures Reveal(z, gen) == (Success(z.dora[0]), z.(revealed := 1))
  {
  }

  /** Game.Start from WaitingToStart with up to four seats, East among
      them: every seat holds its thirteen tiles in draw order, one dora is
      revealed, East has the turn and has drawn the next tile, the live
      wall keeps 122 - 13n - 1 tiles, and the history gains GameStart,
      PlayerTurnBegin and WaitingForDiscard. */
  lemma StartReachesDiscard(t: Table, choose: seq<nat>, now: nat, gen: Generation)
    requires Shaped(t) && StateOf(t) == WaitingToStart && |t.hands| <= 4
    requires ValidChoices(choose, TileCount) && East in t.seats
    ensures var n := |t.hands|;
            var z := NewGameZones(choose);
            var live := z.live;
            |live| == 122 &&
            Start(t, choose, now, gen) ==
              (Pass, t.(zones := z.(live := live[HandSize * n + 1..], revealed := 1),
                        hands := Blocks(live, n),
                        currentTurn := East,
                        drawn := t.drawn[ActiveIndex(t.seats, East).value := Some(live[HandSize * n])],
                        history := t.history + [Transition(GameStart, now), Transition(PlayerTurnBegin, now),
                                                Transition(WaitingForDiscard, now)]))
  {
    var n := |t.hands|;
    var z := NewGameZones(choose);
    FreshZones(choose);
    var z1 := z.(revealed := 1);
    FirstReveal(z, gen);
    var t2 := t.(zones := z1, history := t.history + [Transition(GameStart, now)]);
    assert Start(t, choose, now, gen) == SetupBoard(t2, now, gen);
    SetupBoardDeals(t2, now, gen);
    var t3 := t2.(zones := z1.(live := z.live[HandSize * n..]), hands := Blocks(z.live, n),
                  currentTurn := East, history := t2.history + [Transition(PlayerTurnBegin, now)]);
    StartPlayerTurnOutcome(t3, now, gen);
    assert z.live[HandSize * n..][1..] == z.live[HandSize * n + 1..];
    assert t3.history + [Transition(WaitingForDiscard, now)] ==
           t.history + [Transition(GameStart, now), Transition(PlayerTurnBegin, now), Transition(WaitingForDiscard, now)];
  }

  /** A discard from WaitingForDiscard records WaitingForCall. When some
      seat can call on the tile the game stops there; otherwise the turn
      passes to the next wind in play, PlayerTurnBegin is recorded and
      that turn starts as StartPlayerTurnOutcome says. The legacy engine
      never waits. */
  lemma DiscardCascade(t: Table, tile: Tile, now: nat, gen: Generation)
    requires Shaped(t) && StateOf(t) == WaitingForDiscard
    ensures var t1 := if gen == Current then t.(lastDiscard := Some(tile)) else t;
            var wfc := t1.(history := t.history + [Transition(WaitingForCall, now)]);
            (gen == Legacy ==> !Waits(t1, gen)) &&
            Discarded(t, tile, now, gen) ==
              if Waits(t1, gen) then (Pass, wfc)
              else StartPlayerTurn(wfc.(currentTurn := NextWind(t.winds, t.currentTurn),
                                        history := wfc.history + [Transition(PlayerTurnBegin, now)]), now, gen)
  {
    var t1 := if gen == Current then t.(lastDiscard := Some(tile)) else t;
    var wfc := t1.(history := t.history + [Transition(WaitingForCall, now)]);
    assert Recorded(t1.history, WaitingForCall, now) == wfc.history;
    assert Discarded(t, tile, now, gen) == OnStateChanged(wfc, WaitingForCall, now, gen);
    assert Waits(wfc, gen) == Waits(t1, gen);
    if !Waits(t1, gen) {
      var t2 := wfc.(currentTurn := NextWind(t.winds, t.currentTurn));
      var h2 := wfc.history + [Transition(PlayerTurnBegin, now)];
      assert OnStateChanged(wfc, WaitingForCall, now, gen) == NextTurn(wfc, now, gen);
      assert Recorded(t2.history, PlayerTurnBegin, now) == h2;
      assert NextTurn(wfc, now, gen) == OnStateChanged(t2.(history := h2), PlayerTurnBegin, now, gen);
    }
  }

  /** A discard during the call window changes nothing but the remembered
      tile: WaitingForCall is already the current state, so FSM.Set
      returns at once. */
  lemma DiscardDuringCallWindow(t: Table, tile: Tile, now: nat, gen: Generation)
    requires Shaped(t) && StateOf(t) == WaitingForCall
    ensures Discarded(t, tile, now, gen) ==
            (Pass, if gen == Current then t.(lastDiscard := Some(tile)) else t)
  {
  }
}
