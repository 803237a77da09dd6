/** Tiles: kind and value, the order on them, the honor and terminal
    predicates, the dora successor and the short string form. */
module Tiles {

  /** The kinds of tile, in declaration order: the order of the enum's
      underlying values 0..4, which is also the primary key of the tile order. */
  datatype Kind = Character | Bamboo | Circle | Wind | Dragon

  /** The winds, underlying values 0..3. */
  datatype Wind = East | South | West | North

  /** The dragons, underlying values 0..2. */
  datatype Dragon = White | Green | Red

  /** A tile. The value is 1..9 for a suit, the wind's or the dragon's
      underlying value for an honor. */
  datatype Tile = Tile(kind: Kind, value: int)

  /** The underlying value of a kind. */
  function Rank(k: Kind): nat
  {
    match k
    case Character => 0
    case Bamboo => 1
    case Circle => 2
    case Wind => 3
    case Dragon => 4
  }

  /** The underlying value of a wind. */
  function WindValue(w: Wind): nat
  {
    match w
    case East => 0
    case South => 1
    case West => 2
    case North => 3
  }

  /** The underlying value of a dragon. */
  function DragonValue(d: Dragon): nat
  {
    match d
    case White => 0
    case Green => 1
    case Red => 2
  }

  const WindCount := 4
  const DragonCount := 3

  /** The tiles that exist in the game: 1..9 in a suit, a wind or a dragon
      value for an honor. */
  predicate IsValid(t: Tile)
  {
    match t.kind
    case Wind => 0 <= t.value < WindCount
    case Dragon => 0 <= t.value < DragonCount
    case _ => 1 <= t.value <= 9
  }

  predicate IsSuit(k: Kind)
  {
    k == Character || k == Bamboo || k == Circle
  }

  /** The lexicographic order on (kind rank, value), stated independently
      of CompareTo: the reference the comparison is proved against. */
  predicate Less(a: Tile, b: Tile)
  {
    Rank(a.kind) < Rank(b.kind) || (a.kind == b.kind && a.value < b.value)
  }

  /** Tile.CompareTo: the value difference within a kind, the rank
      difference across kinds. Its sign is the lexicographic order, and it is
      zero exactly on equal tiles. */
  function CompareTo(a: Tile, b: Tile): (r: int)
    ensures r == 0 <==> a == b
    ensures r < 0 <==> Less(a, b)
    ensures r > 0 <==> Less(b, a)
    ensures a.kind != b.kind ==> r == Rank(a.kind) - Rank(b.kind)
  {
    if a.kind == b.kind then a.value - b.value else Rank(a.kind) - Rank(b.kind)
  }

  /** Comparison is antisymmetric: swapping the operands negates it. */
  lemma CompareToAntisymmetric(a: Tile, b: Tile)
    ensures CompareTo(a, b) == -CompareTo(b, a)
  {
  }

  /** "At most" under CompareTo is a total order on tiles. */
  predicate AtMost(a: Tile, b: Tile)
  {
    CompareTo(a, b) <= 0
  }

  lemma AtMostTotalOrder(a: Tile, b: Tile, c: Tile)
    ensures AtMost(a, a)
    ensures AtMost(a, b) || AtMost(b, a)
    ensures AtMost(a, b) && AtMost(b, a) ==> a == b
    ensures AtMost(a, b) && AtMost(b, c) ==> AtMost(a, c)
  {
  }

  /** The kind order Character < Bamboo < Circle < Wind < Dragon decides
      before the value does. */
  lemma KindOrderFirst(u: int, v: int)
    ensures CompareTo(Tile(Character, u), Tile(Bamboo, v)) < 0
    ensures CompareTo(Tile(Bamboo, u), Tile(Circle, v)) < 0
    ensures CompareTo(Tile(Circle, u), Tile(Wind, v)) < 0
    ensures CompareTo(Tile(Wind, u), Tile(Dragon, v)) < 0
  {
  }

  predicate IsHonor(t: Tile)
  {
    t.kind == Dragon || t.kind == Wind
  }

  predicate IsTerminal(t: Tile)
  {
    IsHonor(t) || t.value == 1 || t.value == 9
  }

  /** The tiles that are neither honors nor terminals are the suited 2..8. */
  lemma SimpleTiles(t: Tile)
    requires IsValid(t)
    ensures !IsTerminal(t) <==> IsSuit(t.kind) && 2 <= t.value <= 8
  {
  }

  /** The number of values a kind cycles through under Next, and the first of them. */
  function Period(k: Kind): nat
  {
    match k
    case Wind => WindCount
    case Dragon => DragonCount
    case _ => 9
  }

  function Base(k: Kind): nat
  {
    if IsSuit(k) then 1 else 0
  }

  lemma ValidRange(t: Tile)
    ensures IsValid(t) <==> Base(t.kind) <= t.value < Base(t.kind) + Period(t.kind)
  {
  }

  /** Tile.Next, the dora indicated by an indicator: the next value of the
      same kind, wrapping from the last value of the kind to its first (9 to 1
      for a suit, North to East, Red to White). */
  function Next(t: Tile): (r: Tile)
    ensures r.kind == t.kind
    ensures IsValid(t) ==> IsValid(r)
  {
    var wrap := match t.kind
                case Dragon => DragonCount
                case Wind => WindCount
                case _ => 10;
    var wrapTo := match t.kind
                  case Dragon => DragonValue(White)
                  case Wind => WindValue(East)
                  case _ => 1;
    var nextValue := t.value + 1;
    Tile(t.kind, if nextValue >= wrap then wrapTo else nextValue)
  }

  /** Next advances the value by one, cyclically within the kind. */
  lemma NextAdvances(t: Tile)
    requires IsValid(t)
    ensures Next(t).value - Base(t.kind) == (t.value - Base(t.kind) + 1) % Period(t.kind)
  {
    ValidRange(t);
    ModSmall(t.value - Base(t.kind) + 1, Period(t.kind));
  }

  lemma NextSuit(t: Tile)
    requires IsSuit(t.kind) && 1 <= t.value <= 9
    ensures Next(t) == Tile(t.kind, if t.value < 9 then t.value + 1 else 1)
  {
  }

  lemma NextHonor(w: Wind, d: Dragon)
    ensures Next(Tile(Wind, WindValue(w))).value ==
            WindValue(match w case East => South case South => West case West => North case North => East)
    ensures Next(Tile(Dragon, DragonValue(d))).value ==
            DragonValue(match d case White => Green case Green => Red case Red => White)
  {
  }

  /** n applications of Next. */
  function NextN(t: Tile, n: nat): Tile
  {
    if n == 0 then t else Next(NextN(t, n - 1))
  }

  /** One step of Next on a valid tile: the next value, or the kind's first
      value after its last. */
  lemma NextWraps(t: Tile)
    requires IsValid(t)
    ensures Next(t).value == if t.value + 1 == Base(t.kind) + Period(t.kind) then Base(t.kind) else t.value + 1
  {
    ValidRange(t);
  }

  /** Up to one full period, n applications of Next advance the value by n,
      wrapping once past the kind's last value. */
  lemma {:induction false} NextNCycle(t: Tile, n: nat)
    requires IsValid(t) && n <= Period(t.kind)
    ensures NextN(t, n).kind == t.kind && IsValid(NextN(t, n))
    ensures NextN(t, n).value ==
            if t.value + n < Base(t.kind) + Period(t.kind) then t.value + n else t.value + n - Period(t.kind)
  {
    ValidRange(t);
    if n > 0 {
      NextNCycle(t, n - 1);
      NextWraps(NextN(t, n - 1));
    }
  }

  /** Next is cyclic: nine applications give a suited tile back, four a
      wind, three a dragon, and no fewer do. */
  lemma NextCyclic(t: Tile, n: nat)
    requires IsValid(t)
    ensures NextN(t, Period(t.kind)) == t
    ensures 0 < n < Period(t.kind) ==> NextN(t, n) != t
  {
    ValidRange(t);
    NextNCycle(t, Period(t.kind));
    if 0 < n < Period(t.kind) {
      NextNCycle(t, n);
    }
  }

  lemma ModSmall(y: int, p: int)
    requires p == 3 || p == 4 || p == 9
    requires 0 <= y < 2 * p
    ensures y % p == if y < p then y else y - p
  {
    if p == 3 {
      assert y % 3 == if y < 3 then y else y - 3;
    } else if p == 4 {
      assert y % 4 == if y < 4 then y else y - 4;
    } else {
      assert y % 9 == if y < 9 then y else y - 9;
    }
  }

  const WindNames: seq<string> := ["East", "South", "West", "North"]
  const DragonNames: seq<string> := ["White", "Green", "Red"]

  function Digit(d: nat): char
    requires d < 10
  {
    "0123456789"[d]
  }

  /** The decimal form of a natural number (C#'s int.ToString). */
  function NatString(n: nat): (r: string)
    ensures |r| > 0
    ensures n < 10 ==> r == [Digit(n)]
    decreases n
  {
    if n < 10 then [Digit(n)] else NatString(n / 10) + [Digit(n % 10)]
  }

  /** The decimal form of an integer, with a leading minus when negative. */
  function IntString(i: int): (r: string)
    ensures |r| > 0
  {
    if i < 0 then "-" + NatString(-i) else NatString(i)
  }

  /** The name of an enum value, as C#'s Enum.ToString gives it: the member's
      name, or the decimal form of an undefined value. */
  function EnumName(names: seq<string>, v: int): (r: string)
    requires forall i :: 0 <= i < |names| ==> |names[i]| > 0
    ensures |r| > 0
  {
    if 0 <= v < |names| then names[v] else IntString(v)
  }

  /** Tile.ToString, over the kind's underlying value so that a value
      outside the enum (the "UNK" case) can be expressed. */
  function TileString(kindCode: int, value: int): (r: string)
    ensures r == "UNK" <==> kindCode < 0 || kindCode > 4
  {
    if kindCode == Rank(Bamboo) then Tagged('B', IntString(value))
    else if kindCode == Rank(Character) then Tagged('C', IntString(value))
    else if kindCode == Rank(Circle) then Tagged('P', IntString(value))
    else if kindCode == Rank(Dragon) then Tagged('D', [EnumName(DragonNames, value)[0]])
    else if kindCode == Rank(Wind) then Tagged('W', [EnumName(WindNames, value)[0]])
    else "UNK"
  }

  /** A kind letter, a slash and the rest. */
  function Tagged(letter: char, rest: string): (r: string)
    ensures |r| == 2 + |rest| && r[0] == letter && r[1] == '/' && r[2..] == rest
  {
    [letter, '/'] + rest
  }

  /** The letter that heads each kind's string form. */
  function KindLetter(k: Kind): char
  {
    match k
    case Bamboo => 'B'
    case Character => 'C'
    case Circle => 'P'
    case Wind => 'W'
    case Dragon => 'D'
  }

  /** A valid tile prints as its kind letter, a slash, then the value's
      digit for a suit or the initial of the wind's or dragon's name. */
  function ToString(t: Tile): (r: string)
    ensures r != "UNK"
    ensures IsValid(t) && IsSuit(t.kind) ==> r == [KindLetter(t.kind), '/', Digit(t.value)]
    ensures IsValid(t) && t.kind == Wind ==> r == [KindLetter(Wind), '/', WindNames[t.value][0]]
    ensures IsValid(t) && t.kind == Dragon ==> r == [KindLetter(Dragon), '/', DragonNames[t.value][0]]
  {
    TileString(Rank(t.kind), t.value)
  }

  /** The string form tells valid tiles apart. */
  lemma ToStringInjective(a: Tile, b: Tile)
    requires IsValid(a) && IsValid(b)
    ensures ToString(a) == ToString(b) <==> a == b
  {
    if ToString(a) == ToString(b) {
      assert ToString(a)[0] == ToString(b)[0];
      assert a.kind == b.kind;
      assert ToString(a)[2] == ToString(b)[2];
    }
  }

  lemma ToStringExamples()
    ensures ToString(Tile(Bamboo, 5)) == "B/5"
    ensures ToString(Tile(Character, 1)) == "C/1"
    ensures ToString(Tile(Circle, 9)) == "P/9"
    ensures ToString(Tile(Wind, WindValue(North))) == "W/N"
    ensures ToString(Tile(Dragon, DragonValue(Green))) == "D/G"
    ensures TileString(999, 999) == "UNK"
  {
  }
}
