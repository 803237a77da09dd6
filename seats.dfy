/** The game's pure seat logic: modes and their player counts, the winds in
    play, navigation through them and the assignment of winds to seats. */
module Seats {
  import opened Wrappers
  import opened Errors
  import opened Tiles

  /** Game.GameMode, underlying values 0..2. */
  datatype GameMode = Riichi | Sanma | Minefield

  function ModeValue(m: GameMode): nat
  {
    match m
    case Riichi => 0
    case Sanma => 1
    case Minefield => 2
  }

  /** Game.PlayersForMode, over the mode's underlying value so that the
      default branch (an undefined mode) can be expressed. */
  function PlayersForMode(mode: int): (r: Result<nat, Error>)
    ensures r.Failure? <==> mode < 0 || mode > 2
    ensures r.Failure? ==> r.error == UnknownMode
    ensures r.Success? ==> 2 <= r.value <= 4
  {
    if mode == ModeValue(Riichi) then Success(4)
    else if mode == ModeValue(Sanma) then Success(3)
    else if mode == ModeValue(Minefield) then Success(2)
    else Failure(UnknownMode)
  }

  /** Riichi seats four, Sanma three, Minefield two. */
  lemma PlayersPerMode()
    ensures PlayersForMode(ModeValue(Riichi)) == Success(4)
    ensures PlayersForMode(ModeValue(Sanma)) == Success(3)
    ensures PlayersForMode(ModeValue(Minefield)) == Success(2)
  {
  }

  const AllWinds: seq<Wind> := [East, South, West, North]

  /** The winds in play with n players: the first n winds in enum order. */
  function FirstWinds(n: nat): (ws: seq<Wind>)
    requires n <= 4
    ensures |ws| == n
    ensures forall i :: 0 <= i < n ==> WindValue(ws[i]) == i
  {
    AllWinds[..n]
  }

  /** The first index from k on that holds w, or the length when none does:
      the scan Enumerable.SkipWhile, TakeWhile and List.Remove make. */
  function FindFrom<T(==)>(ws: seq<T>, w: T, k: nat): (r: nat)
    requires k <= |ws|
    ensures k <= r <= |ws|
    ensures r < |ws| ==> ws[r] == w
    decreases |ws| - k
  {
    if k == |ws| || ws[k] == w then k else FindFrom(ws, w, k + 1)
  }

  /** The scan passes over no w. */
  lemma {:induction false} FindFromFirst<T>(ws: seq<T>, w: T, k: nat)
    requires k <= |ws|
    ensures forall j :: k <= j < FindFrom(ws, w, k) ==> ws[j] != w
    decreases |ws| - k
  {
    if k < |ws| && ws[k] != w {
      FindFromFirst(ws, w, k + 1);
    }
  }

  /** The index of the first occurrence of w. */
  function IndexOf<T(==)>(ws: seq<T>, w: T): (i: nat)
    requires w in ws
    ensures i < |ws| && ws[i] == w
  {
    FindFromFirst(ws, w, 0);
    FindFrom(ws, w, 0)
  }

  /** No occurrence of w comes before the one IndexOf finds. */
  lemma IndexOfFirst<T>(ws: seq<T>, w: T)
    requires w in ws
    ensures forall j :: 0 <= j < IndexOf(ws, w) ==> ws[j] != w
  {
    FindFromFirst(ws, w, 0);
  }

  /** Enumerable.SkipWhile(x => x != w): the suffix from the first w on,
      empty when w does not occur. */
  function SkipUntil(ws: seq<Wind>, w: Wind): (r: seq<Wind>)
    ensures w in ws ==> r == ws[IndexOf(ws, w)..]
    ensures w !in ws ==> r == []
  {
    ws[FindFrom(ws, w, 0)..]
  }

  /** Enumerable.TakeWhile(x => x != w): the prefix before the first w, the
      whole sequence when w does not occur. */
  function TakeUntil(ws: seq<Wind>, w: Wind): (r: seq<Wind>)
    ensures w in ws ==> r == ws[..IndexOf(ws, w)]
    ensures w !in ws ==> r == ws
  {
    ws[..FindFrom(ws, w, 0)]
  }

  /** Game.NextWind: Winds.SkipWhile(x => x != w).Skip(1).FirstOrDefault(). */
  function NextWind(winds: seq<Wind>, w: Wind): Wind
  {
    var rest := SkipUntil(winds, w);
    if |rest| > 1 then rest[1] else East
  }

  /** NextWind is the wind after w's first occurrence; East (the enum's
      default) when w is the last wind or does not occur. */
  lemma NextWindAt(winds: seq<Wind>, w: Wind)
    ensures w in winds && IndexOf(winds, w) + 1 < |winds| ==> NextWind(winds, w) == winds[IndexOf(winds, w) + 1]
    ensures w in winds && IndexOf(winds, w) + 1 == |winds| ==> NextWind(winds, w) == East
    ensures w !in winds ==> NextWind(winds, w) == East
  {
  }

  /** Game.PreviousWind: Winds.TakeWhile(x => x != w).Last(), whose
      InvalidOperationException on an empty prefix is caught to give
      Winds.Last(). Winds is never empty once the game is set up. */
  function PreviousWind(winds: seq<Wind>, w: Wind): Wind
    requires |winds| > 0
  {
    var before := TakeUntil(winds, w);
    if |before| > 0 then before[|before| - 1] else winds[|winds| - 1]
  }

  /** PreviousWind is the wind before w's first occurrence; the last wind
      when w is the first wind or does not occur. */
  lemma PreviousWindAt(winds: seq<Wind>, w: Wind)
    requires |winds| > 0
    ensures w in winds && IndexOf(winds, w) > 0 ==> PreviousWind(winds, w) == winds[IndexOf(winds, w) - 1]
    ensures w in winds && IndexOf(winds, w) == 0 ==> PreviousWind(winds, w) == winds[|winds| - 1]
    ensures w !in winds ==> PreviousWind(winds, w) == winds[|winds| - 1]
  {
  }

  /** Winds with no repeats. */
  predicate Distinct(ws: seq<Wind>)
  {
    forall i, j :: 0 <= i < j < |ws| ==> ws[i] != ws[j]
  }

  lemma IndexOfDistinct(ws: seq<Wind>, k: nat)
    requires Distinct(ws) && k < |ws|
    ensures IndexOf(ws, ws[k]) == k
  {
  }

  lemma FirstWindsDistinct(n: nat)
    requires n <= 4
    ensures Distinct(FirstWinds(n))
    ensures n > 0 ==> FirstWinds(n)[0] == East
  {
    var ws := FirstWinds(n);
    forall i, j | 0 <= i < j < n ensures ws[i] != ws[j] {
      assert WindValue(ws[i]) != WindValue(ws[j]);
    }
  }

  /** On the winds in play, NextWind steps cyclically: the k-th wind goes to
      the (k+1)-th, the last wraps to the first (East). */
  lemma NextWindCycle(winds: seq<Wind>, k: nat)
    requires Distinct(winds) && |winds| > 0 && winds[0] == East && k < |winds|
    ensures NextWind(winds, winds[k]) == winds[if k + 1 < |winds| then k + 1 else 0]
  {
    IndexOfDistinct(winds, k);
    NextWindAt(winds, winds[k]);
  }

  /** ... and PreviousWind steps back, the first wrapping to the last. */
  lemma PreviousWindCycle(winds: seq<Wind>, k: nat)
    requires Distinct(winds) && |winds| > 0 && k < |winds|
    ensures PreviousWind(winds, winds[k]) == winds[if k > 0 then k - 1 else |winds| - 1]
  {
    IndexOfDistinct(winds, k);
    PreviousWindAt(winds, winds[k]);
  }

  /** NextWind and PreviousWind undo each other on the winds in play. */
  lemma NextPreviousInverse(n: nat, w: Wind)
    requires 1 <= n <= 4 && w in FirstWinds(n)
    ensures NextWind(FirstWinds(n), PreviousWind(FirstWinds(n), w)) == w
    ensures PreviousWind(FirstWinds(n), NextWind(FirstWinds(n), w)) == w
  {
    var ws := FirstWinds(n);
    FirstWindsDistinct(n);
    var k := IndexOf(ws, w);
    var p := if k > 0 then k - 1 else n - 1;
    var q := if k + 1 < n then k + 1 else 0;
    PreviousWindCycle(ws, k);
    NextWindCycle(ws, p);
    NextWindCycle(ws, k);
    PreviousWindCycle(ws, q);
  }

  /** NextWind never leaves the winds in play when there is at least one. */
  lemma NextWindStaysIn(n: nat, w: Wind)
    requires 1 <= n <= 4
    ensures NextWind(FirstWinds(n), w) in FirstWinds(n)
  {
    FirstWindsDistinct(n);
    NextWindAt(FirstWinds(n), w);
  }

  /** Enumerable.Reverse. */
  function Reverse(ws: seq<Wind>): seq<Wind>
  {
    seq(|ws|, i requires 0 <= i < |ws| => ws[|ws| - 1 - i])
  }

  /** The wind of the first seat in Game.Setup:
      Winds.Append(East).Reverse().Skip(turn - 1).FirstOrDefault(). */
  function FirstSeatWind(winds: seq<Wind>, turn: int): (r: Wind)
    requires 1 <= turn
  {
    var all := Reverse(winds + [East]);
    if turn - 1 < |all| then all[turn - 1] else East
  }

  /** The winds of count consecutive seats when the first holds start and
      each next seat holds NextWind of the previous one (the foreach loops of
      both Game versions). */
  function Rotation(winds: seq<Wind>, start: Wind, count: nat): (r: seq<Wind>)
    ensures |r| == count
    ensures count > 0 ==> r[0] == start
    decreases count
  {
    if count == 0 then [] else [start] + Rotation(winds, NextWind(winds, start), count - 1)
  }

  /** Each seat after the first holds the wind after its predecessor's. */
  lemma {:induction false} RotationStep(winds: seq<Wind>, start: Wind, count: nat, i: nat)
    requires 0 < i < count
    ensures Rotation(winds, start, count)[i] == NextWind(winds, Rotation(winds, start, count)[i - 1])
    decreases count
  {
    var tail := Rotation(winds, NextWind(winds, start), count - 1);
    assert Rotation(winds, start, count) == [start] + tail;
    if i > 1 {
      RotationStep(winds, NextWind(winds, start), count - 1, i - 1);
    }
  }

  function Wrap(x: nat, n: nat): nat
  {
    if x < n then x else x - n
  }

  /** NextWind on the winds in play with n players. */
  lemma NextFirstWind(n: nat, k: nat)
    requires 1 <= n <= 4 && k < n
    ensures NextWind(FirstWinds(n), FirstWinds(n)[k]) == FirstWinds(n)[if k + 1 < n then k + 1 else 0]
  {
    FirstWindsDistinct(n);
    NextWindCycle(FirstWinds(n), k);
  }

  /** Starting from the st-th wind in play, the i-th seat holds the
      (st + i)-th wind, counted cyclically. */
  lemma {:induction false} RotationAt(n: nat, st: nat, c: nat, i: nat)
    requires 1 <= n <= 4 && st < n && i < c <= n
    ensures Rotation(FirstWinds(n), FirstWinds(n)[st], c)[i] == FirstWinds(n)[Wrap(st + i, n)]
    decreases c
  {
    var ws := FirstWinds(n);
    if i > 0 {
      var next := if st + 1 < n then st + 1 else 0;
      NextFirstWind(n, st);
      assert Rotation(ws, ws[st], c)[i] == Rotation(ws, ws[next], c - 1)[i - 1];
      RotationAt(n, next, c - 1, i - 1);
      assert Wrap(next + i - 1, n) == Wrap(st + i, n);
    } else {
      assert Wrap(st, n) == st;
    }
  }

  /** The seat winds Game.Setup assigns for a number of players and a turn. */
  function SeatWinds(n: nat, turn: int): (r: seq<Wind>)
    requires n <= 4 && 1 <= turn
    ensures |r| == n
  {
    Rotation(FirstWinds(n), FirstSeatWind(FirstWinds(n), turn), n)
  }

  /** Seats hold the winds in play once each: the seat winds are a
      bijection onto the winds in play. */
  predicate IsSeating(seats: seq<Wind>, winds: seq<Wind>)
  {
    |seats| == |winds| && Distinct(seats) && forall i :: 0 <= i < |seats| ==> seats[i] in winds
  }

  lemma RotationSeating(n: nat, st: nat)
    requires 1 <= n <= 4 && st < n
    ensures IsSeating(Rotation(FirstWinds(n), FirstWinds(n)[st], n), FirstWinds(n))
  {
    var ws := FirstWinds(n);
    var r := Rotation(ws, ws[st], n);
    forall i | 0 <= i < n ensures r[i] == ws[Wrap(st + i, n)] {
      RotationAt(n, st, n, i);
    }
    forall i, j | 0 <= i < j < n ensures r[i] != r[j] {
      assert Wrap(st + i, n) != Wrap(st + j, n);
      assert WindValue(ws[Wrap(st + i, n)]) != WindValue(ws[Wrap(st + j, n)]);
    }
  }

  /** Where in the winds in play Game.Setup starts handing out seat winds. */
  function SeatOffset(n: nat, turn: int): nat
    requires 1 <= turn <= n
  {
    if turn == 1 then 0 else n - turn + 1
  }

  /** The winds in play rotated left by the offset: seat i holds the
      (offset + i)-th wind in play, counted cyclically. */
  function DealtSeats(n: nat, turn: int): (r: seq<Wind>)
    requires n <= 4 && 1 <= turn <= n
  {
    FirstWinds(n)[SeatOffset(n, turn)..] + FirstWinds(n)[..SeatOffset(n, turn)]
  }

  /** Game.Setup's first seat wind is the SeatOffset-th wind in play. */
  lemma FirstSeatOffset(n: nat, turn: int)
    requires 2 <= n <= 4 && 1 <= turn <= n
    ensures SeatOffset(n, turn) < n
    ensures FirstSeatWind(FirstWinds(n), turn) == FirstWinds(n)[SeatOffset(n, turn)]
  {
    var ws := FirstWinds(n);
    assert Reverse(ws + [East])[turn - 1] == (ws + [East])[n + 1 - turn];
  }

  /** The seat winds of Game.Setup in closed form. */
  lemma SeatWindsDealt(n: nat, turn: int)
    requires 2 <= n <= 4 && 1 <= turn <= n
    ensures SeatWinds(n, turn) == DealtSeats(n, turn)
  {
    var ws := FirstWinds(n);
    FirstWindsDistinct(n);
    FirstSeatOffset(n, turn);
    var st := SeatOffset(n, turn);
    var r := Rotation(ws, ws[st], n);
    assert SeatWinds(n, turn) == r;
    var d := DealtSeats(n, turn);
    forall i | 0 <= i < n ensures r[i] == d[i] {
      RotationAt(n, st, n, i);
      assert d[i] == ws[Wrap(st + i, n)];
    }
  }

  /** For every mode and every valid turn, Setup seats the dealer (East) at
      index turn - 1, the seat winds are the winds in play once each, and
      they run cyclically from the offset. */
  lemma SetupSeating(n: nat, turn: int)
    requires 2 <= n <= 4 && 1 <= turn <= n
    ensures SeatWinds(n, turn)[turn - 1] == East
    ensures IsSeating(SeatWinds(n, turn), FirstWinds(n))
    ensures SeatWinds(n, turn) == DealtSeats(n, turn)
  {
    FirstWindsDistinct(n);
    FirstSeatOffset(n, turn);
    SeatWindsDealt(n, turn);
    RotationSeating(n, SeatOffset(n, turn));
    assert Wrap(SeatOffset(n, turn) + turn - 1, n) == 0;
  }

  /** The legacy seat assignment starts at wind (prevalent + turn - 1) mod 4.
      It seats the winds in play once each exactly when that start is one of
      them; otherwise the first seat holds a wind outside the game, and the
      last wind in play is held by nobody. */
  lemma LegacySeating(n: nat, start: Wind)
    requires 2 <= n <= 4
    ensures IsSeating(Rotation(FirstWinds(n), start, n), FirstWinds(n)) <==> WindValue(start) < n
    ensures WindValue(start) >= n ==>
              Rotation(FirstWinds(n), start, n) == [start] + FirstWinds(n)[..n - 1]
    ensures WindValue(start) >= n ==> FirstWinds(n)[n - 1] !in Rotation(FirstWinds(n), start, n)
  {
    var ws := FirstWinds(n);
    FirstWindsDistinct(n);
    var r := Rotation(ws, start, n);
    if WindValue(start) < n {
      assert start == ws[WindValue(start)];
      RotationSeating(n, WindValue(start));
    } else {
      assert start !in ws;
      assert r == [start] + Rotation(ws, East, n - 1);
      forall i | 0 <= i < n - 1 ensures Rotation(ws, ws[0], n - 1)[i] == ws[i] {
        RotationAt(n, 0, n - 1, i);
      }
      assert r == [start] + ws[..n - 1];
      assert ws[n - 1] != start;
    }
  }

  /** A sequence of winds without repeats has as many distinct winds as
      entries. */
  lemma {:induction false} DistinctCardinality(ws: seq<Wind>)
    requires Distinct(ws)
    ensures |set w | w in ws| == |ws|
  {
    if ws != [] {
      DistinctCardinality(ws[1..]);
      assert (set w | w in ws) == (set w | w in ws[1..]) + {ws[0]};
      assert ws[0] !in ws[1..] by {
        forall j | 0 <= j < |ws[1..]| ensures ws[1..][j] != ws[0] {
          assert ws[1..][j] == ws[j + 1];
        }
      }
    }
  }

  lemma {:induction false} CardinalityAtMost(ws: seq<Wind>)
    ensures |set w | w in ws| <= |ws|
  {
    if ws != [] {
      CardinalityAtMost(ws[1..]);
      assert (set w | w in ws) == (set w | w in ws[1..]) + {ws[0]};
    }
  }

  lemma {:induction false} SubsetCardinality(a: set<Wind>, b: set<Wind>)
    requires a <= b
    ensures |a| <= |b|
    decreases |b|
  {
    if a != {} {
      var x :| x in a;
      SubsetCardinality(a - {x}, b - {x});
    }
  }

  /** Seats holding the winds in play once each hold every one of them: no
      wind in play is left without a seat. */
  lemma SeatingCovers(seats: seq<Wind>, winds: seq<Wind>, w: Wind)
    requires IsSeating(seats, winds) && w in winds
    ensures w in seats
  {
    var held := set x | x in seats;
    var all := set x | x in winds;
    DistinctCardinality(seats);
    CardinalityAtMost(winds);
    if w !in seats {
      SubsetCardinality(held, all - {w});
      assert false;
    }
  }

  /** Every seat's wind replaced by the next one (the legacy RotateWinds). */
  function Rotated(winds: seq<Wind>, seats: seq<Wind>): (r: seq<Wind>)
    ensures |r| == |seats|
    ensures forall i :: 0 <= i < |seats| ==> r[i] == NextWind(winds, seats[i])
  {
    seq(|seats|, i requires 0 <= i < |seats| => NextWind(winds, seats[i]))
  }

  /** Rotating a seating of the winds in play gives a seating again, since
      NextWind is a cycle on them. */
  lemma RotatedSeating(n: nat, seats: seq<Wind>)
    requires 1 <= n <= 4 && IsSeating(seats, FirstWinds(n))
    ensures IsSeating(Rotated(FirstWinds(n), seats), FirstWinds(n))
  {
    var ws := FirstWinds(n);
    var r := Rotated(ws, seats);
    FirstWindsDistinct(n);
    forall i | 0 <= i < |seats| ensures r[i] in ws {
      NextWindStaysIn(n, seats[i]);
    }
    forall i, j | 0 <= i < j < |seats| ensures r[i] != r[j] {
      NextPreviousInverse(n, seats[i]);
      NextPreviousInverse(n, seats[j]);
    }
  }

  /** The wind with a given underlying value (a cast to the enum). */
  function WindOf(v: int): (w: Wind)
    requires 0 <= v < 4
    ensures WindValue(w) == v
  {
    AllWinds[v]
  }
}
