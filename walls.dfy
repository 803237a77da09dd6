/** The wall: the full set of 136 tiles, its shuffle, and the split into
    kan wall, dora wall and live wall that draws, kan draws and dora
    reveals consume. */
module Walls {
  import opened Wrappers
  import opened Errors
  import opened Tiles

  const KanCount := 4
  const DoraCount := (1 + KanCount) * 2
  const Copies := 4
  const TileCount := 136

  // ---------------------------------------------------------------------
  // The full set
  // ---------------------------------------------------------------------

  /** The suits in the order Wall.PrepareTiles lists them. */
  const Suits: seq<Kind> := [Bamboo, Character, Circle]

  /** The 34 distinct tiles in PrepareTiles order: the suits 1..9, then
      the winds, then the dragons. */
  function Identities(): (r: seq<Tile>)
    ensures |r| == 34
  {
    seq(27, i requires 0 <= i < 27 => Tile(Suits[i / 9], i % 9 + 1))
    + seq(WindCount, i => Tile(Wind, i))
    + seq(DragonCount, i => Tile(Dragon, i))
  }

  /** Every tile of a sequence repeated Copies times in place (SelectMany
      over Enumerable.Repeat(tile, 4)). */
  function RepeatEach(s: seq<Tile>): (r: seq<Tile>)
    ensures |r| == Copies * |s|
  {
    seq(Copies * |s|, i requires 0 <= i < Copies * |s| => s[i / Copies])
  }

  /** Wall.PrepareTiles. */
  function PrepareTiles(): (r: seq<Tile>)
    ensures |r| == TileCount
  {
    RepeatEach(Identities())
  }

  /** The repetition of a non-empty sequence: its head's block first. */
  lemma RepeatEachCons(s: seq<Tile>)
    requires s != []
    ensures RepeatEach(s) == seq(Copies, _ => s[0]) + RepeatEach(s[1..])
  {
    var r := RepeatEach(s);
    var q := seq(Copies, _ => s[0]) + RepeatEach(s[1..]);
    forall i | 0 <= i < |r| ensures r[i] == q[i] {
      if i >= Copies {
        assert s[i / Copies] == s[1..][(i - Copies) / Copies];
      }
    }
  }

  lemma {:induction false} RepeatEachCount(s: seq<Tile>, t: Tile)
    ensures multiset(RepeatEach(s))[t] == Copies * multiset(s)[t]
  {
    if s != [] {
      RepeatEachCons(s);
      RepeatEachCount(s[1..], t);
      assert s == [s[0]] + s[1..];
      var block := seq(Copies, _ => s[0]);
      assert multiset(block)[t] == if t == s[0] then Copies else 0 by {
        RepeatCount(s[0], Copies, t);
      }
    }
  }

  lemma {:induction false} RepeatCount(x: Tile, n: nat, t: Tile)
    ensures multiset(seq(n, _ => x))[t] == if t == x then n else 0
  {
    if n > 0 {
      RepeatCount(x, n - 1, t);
      assert seq(n, _ => x) == seq(n - 1, _ => x) + [x];
    }
  }

  lemma IdentitiesDistinct()
    ensures forall i, j :: 0 <= i < j < 34 ==> Identities()[i] != Identities()[j]
  {
    var ids := Identities();
    forall i, j | 0 <= i < j < 34 ensures ids[i] != ids[j] {
      if j < 27 {
        assert ids[i] == Tile(Suits[i / 9], i % 9 + 1) && ids[j] == Tile(Suits[j / 9], j % 9 + 1);
        if i / 9 == j / 9 {
          assert i % 9 != j % 9;
        }
      }
    }
  }

  lemma IdentitiesAreTheValidTiles(t: Tile)
    ensures t in Identities() <==> IsValid(t)
  {
    var ids := Identities();
    if IsValid(t) {
      match t.kind
      case Bamboo => assert ids[t.value - 1] == t;
      case Character => assert ids[9 + t.value - 1] == t;
      case Circle => assert ids[18 + t.value - 1] == t;
      case Wind => assert ids[27 + t.value] == t;
      case Dragon => assert ids[31 + t.value] == t;
    }
    if t in ids {
      var i :| 0 <= i < 34 && ids[i] == t;
      if i < 27 {
        assert t == Tile(Suits[i / 9], i % 9 + 1);
      }
    }
  }

  lemma DistinctCount(s: seq<Tile>, t: Tile)
    requires forall i, j :: 0 <= i < j < |s| ==> s[i] != s[j]
    ensures multiset(s)[t] == if t in s then 1 else 0
  {
    if s != [] {
      assert s == [s[0]] + s[1..];
      DistinctCount(s[1..], t);
    }
  }

  /** The full set holds 136 tiles: four of each valid tile and nothing
      else. */
  lemma PrepareTilesCounts(t: Tile)
    ensures multiset(PrepareTiles())[t] == if IsValid(t) then Copies else 0
  {
    IdentitiesDistinct();
    DistinctCount(Identities(), t);
    IdentitiesAreTheValidTiles(t);
    RepeatEachCount(Identities(), t);
  }

  // ---------------------------------------------------------------------
  // The shuffle
  // ---------------------------------------------------------------------

  /** Swap choices for a shuffle of n elements: the step at index i swaps
      with an index in 0..i (Random.Next(0, index + 1)). */
  predicate ValidChoices(choose: seq<nat>, n: nat)
  {
    |choose| == n && forall i :: 0 <= i < n ==> choose[i] <= i
  }

  function Swap<T>(s: seq<T>, i: nat, j: nat): (r: seq<T>)
    requires i < |s| && j < |s|
    ensures |r| == |s| && r[i] == s[j] && r[j] == s[i]
    ensures forall k :: 0 <= k < |s| && k != i && k != j ==> r[k] == s[k]
  {
    s[i := s[j]][j := s[i]]
  }

  /** The shuffle from index down to 1, as the loop runs it. */
  function Shuffled<T>(s: seq<T>, choose: seq<nat>, index: int): seq<T>
    requires index < |s| && ValidChoices(choose, |s|)
    decreases index
  {
    if index <= 0 then s else Shuffled(Swap(s, index, choose[index]), choose, index - 1)
  }

  lemma SwapPermutes<T>(s: seq<T>, i: nat, j: nat)
    requires i < |s| && j < |s|
    ensures multiset(Swap(s, i, j)) == multiset(s)
  {
    if i != j {
      var a := s[i := s[j]];
      assert multiset(a) == multiset(s) - multiset{s[i]} + multiset{s[j]};
      assert multiset(a[j := s[i]]) == multiset(a) - multiset{a[j]} + multiset{s[i]};
    }
  }

  /** Whatever indices the random source picks, the shuffle is a
      permutation of its input. */
  lemma {:induction false} ShuffledPermutes<T>(s: seq<T>, choose: seq<nat>, index: int)
    requires index < |s| && ValidChoices(choose, |s|)
    ensures |Shuffled(s, choose, index)| == |s|
    ensures multiset(Shuffled(s, choose, index)) == multiset(s)
    decreases index
  {
    if index > 0 {
      SwapPermutes(s, index, choose[index]);
      ShuffledPermutes(Swap(s, index, choose[index]), choose, index - 1);
    }
  }

  /** Wall.ShuffleTiles: the Fisher-Yates shuffle in place, the index
      running from the last element down to 1. */
  method ShuffleTiles<T>(a: array<T>, choose: seq<nat>)
    requires ValidChoices(choose, a.Length)
    modifies a
    ensures a[..] == Shuffled(old(a[..]), choose, a.Length - 1)
  {
    var index := a.Length - 1;
    while index > 0
      invariant -1 <= index < a.Length
      invariant a.Length > 0 ==> 0 <= index
      invariant Shuffled(a[..], choose, index) == Shuffled(old(a[..]), choose, a.Length - 1)
      decreases index
    {
      var target := choose[index];
      a[index], a[target] := a[target], a[index];
      index := index - 1;
    }
  }

  /** A list shuffled as Wall.ShuffleTiles does it, on an array copy. */
  method ShuffledCopy(s: seq<Tile>, choose: seq<nat>) returns (r: seq<Tile>)
    requires ValidChoices(choose, |s|)
    ensures |r| == |s| && r == Shuffled(s, choose, |s| - 1)
  {
    var a := new Tile[|s|](i requires 0 <= i < |s| => s[i]);
    assert a[..] == s;
    ShuffleTiles(a, choose);
    r := a[..];
  }

  // ---------------------------------------------------------------------
  // The zones of the wall
  // ---------------------------------------------------------------------

  /** Enumerable.Take. */
  function Take<T>(s: seq<T>, n: nat): seq<T>
  {
    if n < |s| then s[..n] else s
  }

  /** Enumerable.Skip. */
  function Skip<T>(s: seq<T>, n: nat): seq<T>
  {
    if n < |s| then s[n..] else []
  }

  /** The state of a wall: live wall (a queue, head first), kan wall, dora
      wall and the number of doras revealed. */
  datatype Zones = Zones(live: seq<Tile>, kan: seq<Tile>, dora: seq<Tile>, revealed: nat)
  {
    /** Wall.CanDraw. */
    predicate CanDraw()
    {
      |live| > 0
    }

    /** Wall.CanKan. */
    predicate CanKan()
    {
      CanDraw() && |kan| > 0
    }

    /** Wall.CanRevealDora: fewer revealed than half the dora wall. */
    predicate CanRevealDora()
    {
      revealed < |dora| / 2
    }

    /** Wall.Doras: the revealed indicators. */
    function Doras(): seq<Tile>
    {
      Take(dora, revealed)
    }

    /** Wall.UraDoras: as many indicators from the second half. */
    function UraDoras(): seq<Tile>
    {
      Take(Skip(dora, |dora| / 2), revealed)
    }

    /** Every tile the three zones hold. */
    function Contents(): multiset<Tile>
    {
      multiset(live) + multiset(kan) + multiset(dora)
    }
  }

  /** Queue.Dequeue on the live wall: its head, or the given error when it
      is empty. */
  function Dequeue(z: Zones, exhausted: Error): (out: (Result<Tile, Error>, Zones))
    ensures out.0.Success? <==> z.CanDraw()
    ensures out.0.Success? ==> out.0.value == z.live[0] && out.1 == z.(live := z.live[1..])
    ensures out.0.Success? ==> out.1.Contents() + multiset{out.0.value} == z.Contents()
    ensures out.0.Failure? ==> out == (Failure(exhausted), z)
  {
    if |z.live| == 0 then (Failure(exhausted), z)
    else
      assert z.live == [z.live[0]] + z.live[1..];
      (Success(z.live[0]), z.(live := z.live[1..]))
  }

  /** Wall.DrawTile: the head of the live wall, or LiveWallExhausted. */
  function DrawTileStep(z: Zones): (Result<Tile, Error>, Zones)
  {
    Dequeue(z, LiveWallExhausted)
  }

  /** n draws in a row, as a Select over Enumerable.Range makes them: the
      tiles in draw order, or the first failure, the draws before it
      already taken from the wall. */
  function DrawN(z: Zones, n: nat, exhausted: Error): (Result<seq<Tile>, Error>, Zones)
    decreases n
  {
    if n == 0 then (Success([]), z)
    else
      var (first, z1) := Dequeue(z, exhausted);
      if first.Failure? then (Failure(first.error), z1)
      else
        var (rest, z2) := DrawN(z1, n - 1, exhausted);
        (if rest.Success? then Success([first.value] + rest.value) else rest, z2)
  }

  /** Tiles already drawn put before the result of further draws. */
  function Joined(hand: seq<Tile>, d: (Result<seq<Tile>, Error>, Zones)): (Result<seq<Tile>, Error>, Zones)
  {
    (if d.0.Success? then Success(hand + d.0.value) else d.0, d.1)
  }

  /** One draw taken off the front of n draws. */
  lemma DrawNFirst(hand: seq<Tile>, z: Zones, n: nat, exhausted: Error)
    requires n > 0 && z.CanDraw()
    ensures Joined(hand, DrawN(z, n, exhausted)) ==
            Joined(hand + [z.live[0]], DrawN(z.(live := z.live[1..]), n - 1, exhausted))
  {
    var d := DrawN(z.(live := z.live[1..]), n - 1, exhausted);
    if d.0.Success? {
      assert hand + ([z.live[0]] + d.0.value) == hand + [z.live[0]] + d.0.value;
    }
  }

  /** Draws from an empty live wall fail at once and change nothing. */
  lemma DrawNEmpty(z: Zones, n: nat, exhausted: Error)
    requires n > 0 && !z.CanDraw()
    ensures DrawN(z, n, exhausted) == (Failure(exhausted), z)
  {
  }

  /** One more tile moved from the rest of a sequence to its prefix. */
  lemma PrefixStep(s: seq<Tile>, i: nat)
    requires i < |s|
    ensures s[..i] + [s[i]] == s[..i + 1]
    ensures s[i..][0] == s[i] && s[i..][1..] == s[i + 1..]
  {
  }

  /** n draws take the first n tiles of the live wall in order; when
      fewer are left they take all of them and fail. */
  lemma {:induction false} DrawNTakesPrefix(z: Zones, n: nat, exhausted: Error)
    ensures n <= |z.live| ==> DrawN(z, n, exhausted) == (Success(z.live[..n]), z.(live := z.live[n..]))
    ensures n > |z.live| ==> DrawN(z, n, exhausted) == (Failure(exhausted), z.(live := []))
    decreases n
  {
    if n > 0 && |z.live| > 0 {
      var z1 := z.(live := z.live[1..]);
      DrawNTakesPrefix(z1, n - 1, exhausted);
      if n <= |z.live| {
        assert z.live[1..][n - 1..] == z.live[n..];
        assert [z.live[0]] + z.live[1..][..n - 1] == z.live[..n];
      }
    } else if n > 0 {
      assert z.live == [];
      assert z == z.(live := []);
    }
  }

  /** Wall.DrawKan: the head of the kan wall, the live wall losing its last
      tile to no zone at all; DeadWallExhausted unless both are non-empty. */
  function DrawKanStep(z: Zones): (out: (Result<Tile, Error>, Zones))
    ensures out.0.Success? <==> z.CanKan()
    ensures out.0.Success? ==>
              out.0.value == z.kan[0] && out.1.kan == z.kan[1..] &&
              |out.1.live| == |z.live| - 1 && out.1.live == z.live[..|z.live| - 1] &&
              out.1.dora == z.dora && out.1.revealed == z.revealed
    ensures out.0.Success? ==>
              out.1.Contents() + multiset{out.0.value, z.live[|z.live| - 1]} == z.Contents()
    ensures out.0.Failure? ==> out == (Failure(DeadWallExhausted), z)
  {
    if !z.CanKan() then (Failure(DeadWallExhausted), z)
    else
      var tile := z.kan[0];
      var live := Take(z.live, |z.live| - 1);
      assert z.kan == [z.kan[0]] + z.kan[1..];
      assert z.live == live + [z.live[|z.live| - 1]];
      (Success(tile), z.(kan := z.kan[1..], live := live))
  }

  /** Wall.RevealDora: one more indicator revealed, the newly revealed one
      notified; DeadWallExhausted once half the dora wall is revealed. */
  function RevealDoraStep(z: Zones): (out: (Result<Tile, Error>, Zones))
    ensures out.0.Success? <==> z.CanRevealDora()
    ensures out.0.Success? ==>
              out.1 == z.(revealed := z.revealed + 1) &&
              out.0.value == z.dora[z.revealed] &&
              out.1.Doras() == z.Doras() + [out.0.value]
    ensures out.0.Failure? ==> out == (Failure(DeadWallExhausted), z)
  {
    if !z.CanRevealDora() then (Failure(DeadWallExhausted), z)
    else
      var z' := z.(revealed := z.revealed + 1);
      (Success(z'.Doras()[|z'.Doras()| - 1]), z')
  }

  /** Wall.NewGame after the shuffle: 4 tiles to the kan wall, the next 10
      to the dora wall, the rest to the live wall, no dora revealed. */
  function Deal(tiles: seq<Tile>): Zones
    requires |tiles| >= KanCount + DoraCount
  {
    var rest := tiles[KanCount..];
    Zones(rest[DoraCount..], tiles[..KanCount], rest[..DoraCount], 0)
  }

  /** Deal as NewGame computes it: Take, then RemoveRange, twice. */
  lemma DealSplit(tiles: seq<Tile>)
    requires |tiles| >= KanCount + DoraCount
    ensures Deal(tiles) ==
            Zones(tiles[KanCount..][DoraCount..], Take(tiles, KanCount), Take(tiles[KanCount..], DoraCount), 0)
  {
  }

  /** The shuffled full set. */
  function ShuffledSet(choose: seq<nat>): (r: seq<Tile>)
    requires ValidChoices(choose, TileCount)
    ensures |r| == TileCount && multiset(r) == multiset(PrepareTiles())
  {
    var s := PrepareTiles();
    ShuffledPermutes(s, choose, |s| - 1);
    Shuffled(s, choose, |s| - 1)
  }

  /** Wall.NewGame: the shuffled full set dealt into the zones. */
  function NewGameZones(choose: seq<nat>): Zones
    requires ValidChoices(choose, TileCount)
  {
    Deal(ShuffledSet(choose))
  }

  /** Dealing lays a set of 136 out as kan 4, dora 10 and live 122 in its
      own order, holding all of it between them, with no dora revealed. */
  lemma DealLayout(s: seq<Tile>)
    requires |s| == TileCount
    ensures var z := Deal(s);
            |z.kan| == 4 && |z.dora| == 10 && |z.live| == 122 && z.revealed == 0 &&
            z.kan + z.dora + z.live == s &&
            z.Contents() == multiset(s) &&
            z.Doras() == [] && z.UraDoras() == []
  {
    assert s == s[..4] + s[4..][..10] + s[4..][10..];
  }

  /** A new game holds the full set: four of each valid tile. */
  lemma NewGameLayout(choose: seq<nat>, t: Tile)
    requires ValidChoices(choose, TileCount)
    ensures var z := NewGameZones(choose);
            |z.kan| == 4 && |z.dora| == 10 && |z.live| == 122 && z.revealed == 0 &&
            z.kan + z.dora + z.live == ShuffledSet(choose) &&
            z.Contents()[t] == if IsValid(t) then Copies else 0
  {
    DealLayout(ShuffledSet(choose));
    PrepareTilesCounts(t);
  }

  /** The zones after k successive applications of a step. */
  function Iterate(step: Zones -> (Result<Tile, Error>, Zones), z: Zones, k: nat): Zones
    decreases k
  {
    if k == 0 then z else Iterate(step, step(z).1, k - 1)
  }

  /** Kan draws: while the kan wall lasts and the live wall is at least as
      long, each succeeds and costs one tile of each; the next one fails. */
  lemma {:induction false} KanDraws(z: Zones, k: nat)
    requires |z.kan| <= |z.live| && k <= |z.kan|
    ensures var w := Iterate(DrawKanStep, z, k);
            w.kan == z.kan[k..] && w.live == z.live[..|z.live| - k] &&
            w.dora == z.dora && w.revealed == z.revealed &&
            (k < |z.kan| <==> DrawKanStep(w).0.Success?)
    decreases k
  {
    if k > 0 {
      var (r, z1) := DrawKanStep(z);
      assert z.CanKan();
      KanDraws(z1, k - 1);
      assert z1.kan[k - 1..] == z.kan[k..];
      assert z1.live[..|z1.live| - (k - 1)] == z.live[..|z.live| - k];
    }
  }

  /** After a new game exactly four kan draws succeed, taking the first
      four shuffled tiles; the fifth raises DeadWallExhausted. */
  lemma FourKans(s: seq<Tile>, k: nat)
    requires |s| == TileCount && k <= KanCount
    ensures DrawKanStep(Iterate(DrawKanStep, Deal(s), k)).0 ==
            if k < KanCount then Success(s[k]) else Failure(DeadWallExhausted)
  {
    DealLayout(s);
    KanDraws(Deal(s), k);
  }

  /** Reveals within the bound each add one to the count and change
      nothing else. */
  lemma {:induction false} RevealsAdvance(z: Zones, k: nat)
    requires z.revealed + k <= |z.dora| / 2
    ensures Iterate(RevealDoraStep, z, k) == z.(revealed := z.revealed + k)
    decreases k
  {
    if k > 0 {
      RevealsAdvance(RevealDoraStep(z).1, k - 1);
    }
  }

  /** Within the bound, the revealed indicators are the first ones of each
      half of the dora wall. */
  lemma IndicatorsAt(w: Zones)
    requires w.revealed <= |w.dora| / 2
    ensures |w.Doras()| == |w.UraDoras()| == w.revealed
    ensures w.Doras() == w.dora[..w.revealed]
    ensures w.UraDoras() == w.dora[|w.dora| / 2..|w.dora| / 2 + w.revealed]
  {
  }

  /** Dora reveals: each succeeds while fewer than half are revealed, and
      the indicator lists stay of equal length. */
  lemma Reveals(z: Zones, k: nat)
    requires z.revealed + k <= |z.dora| / 2
    ensures var w := Iterate(RevealDoraStep, z, k);
            w == z.(revealed := z.revealed + k) &&
            |w.Doras()| == |w.UraDoras()| == w.revealed &&
            w.Doras() == z.dora[..w.revealed] &&
            w.UraDoras() == z.dora[|z.dora| / 2..|z.dora| / 2 + w.revealed] &&
            (z.revealed + k < |z.dora| / 2 <==> RevealDoraStep(w).0.Success?)
  {
    RevealsAdvance(z, k);
    IndicatorsAt(Iterate(RevealDoraStep, z, k));
  }

  /** A slice of a slice is a slice of the whole. */
  lemma SubSlice(s: seq<Tile>, i: nat, j: nat, a: nat, b: nat)
    requires i <= j <= |s| && a <= b <= j - i
    ensures s[i..j][a..b] == s[i + a..i + b]
  {
    assert forall x :: 0 <= x < b - a ==> s[i..j][a..b][x] == s[i + a..i + b][x];
  }

  /** After a new game exactly five reveals succeed; the sixth raises
      DeadWallExhausted; Doras and UraDoras are the first k of each half of
      the dora wall (shuffled positions 4.. and 9..). */
  lemma FiveReveals(s: seq<Tile>, k: nat)
    requires |s| == TileCount && k <= DoraCount / 2
    ensures var w := Iterate(RevealDoraStep, Deal(s), k);
            RevealDoraStep(w).0 == (if k < 5 then Success(s[KanCount + k]) else Failure(DeadWallExhausted)) &&
            w.Doras() == s[4..4 + k] && w.UraDoras() == s[9..9 + k]
  {
    var z := Deal(s);
    var d := s[4..14];
    assert z.dora == d && z.revealed == 0 && |d| / 2 == 5;
    RevealsAdvance(z, k);
    var w := z.(revealed := k);
    IndicatorsAt(w);
    SubSlice(s, 4, 14, 0, k);
    SubSlice(s, 4, 14, 5, 5 + k);
    if k < 5 {
      assert d[k] == s[KanCount + k];
    }
  }

  // ---------------------------------------------------------------------
  // The wall object
  // ---------------------------------------------------------------------

  /** Wall: the three zones and the reveal count, changed in place. */
  class Wall {
    var liveWall: seq<Tile>
    var kanWall: seq<Tile>
    var doraWall: seq<Tile>
    var revealedDoras: nat

    /** The zones as a value. */
    function State(): Zones
      reads this
    {
      Zones(liveWall, kanWall, doraWall, revealedDoras)
    }

    /** A wall before its first NewGame holds no tiles. */
    constructor ()
      ensures State() == Zones([], [], [], 0)
    {
      liveWall, kanWall, doraWall, revealedDoras := [], [], [], 0;
    }

    method DrawTile() returns (r: Result<Tile, Error>)
      modifies this`liveWall
      ensures (r, State()) == DrawTileStep(old(State()))
    {
      if |liveWall| == 0 {
        return Failure(LiveWallExhausted);
      }
      r := Success(liveWall[0]);
      liveWall := liveWall[1..];
    }

    method RevealDora() returns (r: Result<Tile, Error>)
      modifies this`revealedDoras
      ensures (r, State()) == RevealDoraStep(old(State()))
    {
      if !State().CanRevealDora() {
        return Failure(DeadWallExhausted);
      }
      revealedDoras := revealedDoras + 1;
      var doras := State().Doras();
      r := Success(doras[|doras| - 1]);
    }

    method DrawKan() returns (r: Result<Tile, Error>)
      modifies this`liveWall, this`kanWall
      ensures (r, State()) == DrawKanStep(old(State()))
    {
      if !State().CanKan() {
        return Failure(DeadWallExhausted);
      }
      var tile := kanWall[0];
      kanWall := kanWall[1..];
      liveWall := Take(liveWall, |liveWall| - 1);
      r := Success(tile);
    }

    method NewGame(choose: seq<nat>)
      requires ValidChoices(choose, TileCount)
      modifies this
      ensures State() == NewGameZones(choose)
    {
      var tiles := ShuffledCopy(PrepareTiles(), choose);
      ghost var shuffled := tiles;
      kanWall := Take(tiles, KanCount);
      tiles := tiles[KanCount..];
      doraWall := Take(tiles, DoraCount);
      tiles := tiles[DoraCount..];
      liveWall := tiles;
      revealedDoras := 0;
      DealSplit(shuffled);
      assert shuffled == ShuffledSet(choose);
    }
  }
}
