/** The engine's board: the square array, the piece array and the occupancy words of every
    row and column, all updated in place. */
module FoliumBoard {
  import opened FoliumPosition

  function SquareAt(x: nat, y: nat): nat {
    9 * y + x
  }

  datatype Direction = Left | Right | Down | Up

  /** The k-th square from a square in a direction, NOWHERE beyond the edge. */
  function At(sq: nat, dir: Direction, k: nat): nat
    requires sq < 90
  {
    match dir
    case Left => if k <= sq % 9 then sq - k else NOWHERE
    case Right => if sq % 9 + k < 9 then sq + k else NOWHERE
    case Down => if k <= sq / 9 then sq - 9 * k else NOWHERE
    case Up => if sq / 9 + k < 10 then sq + 9 * k else NOWHERE
  }

  /** The first square beyond the a-th that is occupied or off the board is the n-th. */
  ghost predicate FirstAt(occupied: set<nat>, sq: nat, dir: Direction, a: nat, n: nat)
    requires sq < 90
  {
    && a < n
    && (forall j :: a < j < n ==> At(sq, dir, j) != NOWHERE && At(sq, dir, j) !in occupied)
    && (At(sq, dir, n) == NOWHERE || At(sq, dir, n) in occupied)
  }

  const NONE := 15

  /** The highest bit below a position, and the lowest bit above it: what the tables of
      line words hold. */
  function Prev(word: set<nat>, i: nat): (r: nat)
    requires i < 10
    ensures (r < i && r in word) || r == NONE
    ensures forall j :: 0 <= j < i && (r == NONE || r < j) ==> j !in word
  {
    if i == 0 then NONE else if i - 1 in word then i - 1 else Prev(word, i - 1)
  }

  function Next(word: set<nat>, i: nat): (r: nat)
    requires i < 10
    ensures (i < r < 10 && r in word) || r == NONE
    ensures forall j :: i < j < 10 && j < r ==> j !in word
    decreases 10 - i
  {
    if i == 9 then NONE else if i + 1 in word then i + 1 else Next(word, i + 1)
  }

  function XySquare(x: nat, y: nat): nat {
    if x < 9 && y < 10 then SquareAt(x, y) else NOWHERE
  }

  /** The i-th square of the line through a square that a direction runs along. */
  function Along(sq: nat, dir: Direction, i: nat): nat {
    if dir.Left? || dir.Right? then XySquare(i, sq / 9) else XySquare(sq % 9, i)
  }

  function PlaceOf(sq: nat, dir: Direction): nat {
    if dir.Left? || dir.Right? then sq % 9 else sq / 9
  }

  function Toward(word: set<nat>, i: nat, dir: Direction): (r: nat)
    requires i < 10 || i == NONE
    ensures r < 10 || r == NONE
  {
    if i == NONE then NONE else if dir.Left? || dir.Down? then Prev(word, i) else Next(word, i)
  }

  /** The bit next to the one for the a-th square of a direction stands for the first
      occupied square beyond it. */
  lemma Nearest(word: set<nat>, occupied: set<nat>, sq: nat, dir: Direction, i: nat, a: nat) returns (n: nat)
    requires sq < 90 && i < 10 && At(sq, dir, a) != NOWHERE && At(sq, dir, a) == Along(sq, dir, i) && NOWHERE !in occupied
    requires forall k :: k in word <==> Along(sq, dir, k) in occupied
    ensures var r := Toward(word, i, dir);
            && FirstAt(occupied, sq, dir, a, n) && Along(sq, dir, r) == At(sq, dir, n)
            && (r == NONE <==> At(sq, dir, n) == NOWHERE) && (r != NONE ==> r < 10)
  {
    hide FirstAt, Toward, At, Along;
    if dir.Left? || dir.Down? {
      n := NearestBelow(word, occupied, sq, dir, i, a);
    } else {
      n := NearestAbove(word, occupied, sq, dir, i, a);
    }
  }

  lemma NearestBelow(word: set<nat>, occupied: set<nat>, sq: nat, dir: Direction, i: nat, a: nat) returns (n: nat)
    requires dir.Left? || dir.Down?
    requires sq < 90 && i < 10 && At(sq, dir, a) != NOWHERE && At(sq, dir, a) == Along(sq, dir, i) && NOWHERE !in occupied
    requires forall k :: k in word <==> Along(sq, dir, k) in occupied
    ensures var r := Toward(word, i, dir);
            && FirstAt(occupied, sq, dir, a, n) && Along(sq, dir, r) == At(sq, dir, n)
            && (r == NONE <==> At(sq, dir, n) == NOWHERE) && (r != NONE ==> r < 10)
  {
    hide Prev;
    var r := Toward(word, i, dir);
    assert i == PlaceOf(sq, dir) - a;
    n := if r == NONE then PlaceOf(sq, dir) + 1 else PlaceOf(sq, dir) - r;
    forall j | a < j < n
      ensures At(sq, dir, j) != NOWHERE && At(sq, dir, j) !in occupied
    {
      assert Along(sq, dir, PlaceOf(sq, dir) - j) == At(sq, dir, j);
      assert PlaceOf(sq, dir) - j !in word;
    }
  }

  lemma NearestAbove(word: set<nat>, occupied: set<nat>, sq: nat, dir: Direction, i: nat, a: nat) returns (n: nat)
    requires dir.Right? || dir.Up?
    requires sq < 90 && i < 10 && At(sq, dir, a) != NOWHERE && At(sq, dir, a) == Along(sq, dir, i) && NOWHERE !in occupied
    requires forall k :: k in word <==> Along(sq, dir, k) in occupied
    ensures var r := Toward(word, i, dir);
            && FirstAt(occupied, sq, dir, a, n) && Along(sq, dir, r) == At(sq, dir, n)
            && (r == NONE <==> At(sq, dir, n) == NOWHERE) && (r != NONE ==> r < 10)
  {
    hide Next;
    var r := Toward(word, i, dir);
    assert i == PlaceOf(sq, dir) + a;
    n := (if r != NONE then r else if dir.Right? then 9 else 10) - PlaceOf(sq, dir);
    forall j | a < j < n
      ensures At(sq, dir, j) != NOWHERE && At(sq, dir, j) !in occupied
    {
      assert Along(sq, dir, PlaceOf(sq, dir) + j) == At(sq, dir, j);
      assert PlaceOf(sq, dir) + j !in word;
    }
  }

  ghost predicate RowShows(word: set<nat>, occupied: set<nat>, y: nat) {
    forall x: nat :: x in word <==> x < 9 && SquareAt(x, y) in occupied
  }

  ghost predicate ColumnShows(word: set<nat>, occupied: set<nat>, x: nat) {
    forall y: nat :: y in word <==> y < 10 && SquareAt(x, y) in occupied
  }

  function Switched(s: set<nat>, i: nat, on: bool): set<nat> {
    if on then s + {i} else s - {i}
  }

  /** Filling or emptying a square changes one bit of one row and one bit of one column. */
  lemma LinesAfter(occupied: set<nat>, sq: nat, on: bool, word: set<nat>, line: nat)
    requires sq < 90
    ensures line < 10 && RowShows(word, occupied, line) ==>
              RowShows(if line == sq / 9 then Switched(word, sq % 9, on) else word, Switched(occupied, sq, on), line)
    ensures line < 9 && ColumnShows(word, occupied, line) ==>
              ColumnShows(if line == sq % 9 then Switched(word, sq / 9, on) else word, Switched(occupied, sq, on), line)
  {
  }

  /** Each 16-bit word is the set of its bits: row y holds the occupied x, and word 10 + x
      the occupied y of column x. */
  class Bitmap {
    const lines: array<set<nat>>
    ghost var occupied: set<nat>

    ghost predicate Valid()
      reads this, lines
    {
      && lines.Length == 20
      && (forall s :: s in occupied ==> s < 90)
      && (forall y :: 0 <= y < 10 ==> RowShows(lines[y], occupied, y))
      && (forall i :: 10 <= i < 19 ==> ColumnShows(lines[i], occupied, i - 10))
    }

    constructor ()
      ensures Valid() && occupied == {} && fresh(lines)
    {
      lines := new set<nat>[20](i => if i == 19 then {0, 1, 2, 3, 4, 5, 6, 7, 8, 9} else {});
      occupied := {};
    }

    /** The word of the line through a square that a direction runs along. */
    method LineWord(sq: nat, dir: Direction) returns (word: set<nat>)
      requires Valid() && sq < 90
      ensures NOWHERE !in occupied && forall k :: k in word <==> Along(sq, dir, k) in occupied
    {
      word := if dir.Left? || dir.Right? then lines[sq / 9] else lines[10 + sq % 9];
    }

    /** The first occupied square in a direction, read off one word. */
    method Nonempty1(sq: nat, dir: Direction) returns (r: nat, ghost n: nat)
      requires Valid() && sq < 90
      ensures FirstAt(occupied, sq, dir, 0, n) && r == At(sq, dir, n)
      ensures r == NOWHERE || r in occupied
    {
      hide Valid, Toward;
      var word := LineWord(sq, dir);
      r := Along(sq, dir, Toward(word, PlaceOf(sq, dir), dir));
      n := Nearest(word, occupied, sq, dir, PlaceOf(sq, dir), 0);
    }

    /** The second one. */
    method Nonempty2(sq: nat, dir: Direction) returns (r: nat, ghost m: nat, ghost n: nat)
      requires Valid() && sq < 90
      ensures FirstAt(occupied, sq, dir, 0, m)
      ensures if At(sq, dir, m) == NOWHERE then r == NOWHERE
              else FirstAt(occupied, sq, dir, m, n) && r == At(sq, dir, n)
      ensures r == NOWHERE || r in occupied
    {
      hide Valid, Toward;
      var word := LineWord(sq, dir);
      var i := Toward(word, PlaceOf(sq, dir), dir);
      r := Along(sq, dir, Toward(word, i, dir));
      m := Nearest(word, occupied, sq, dir, PlaceOf(sq, dir), 0);
      n := 0;
      if i == NONE {
        NoneBeyond(word, dir);
      } else {
        n := Nearest(word, occupied, sq, dir, i, m);
      }
    }

    static lemma NoneBeyond(word: set<nat>, dir: Direction)
      ensures Toward(word, NONE, dir) == NONE
    {
    }

    method SetBit(sq: nat)
      requires Valid() && sq < 90
      modifies this, lines
      ensures Valid() && occupied == old(occupied) + {sq}
    {
      hide RowShows, ColumnShows;
      var x, y := sq % 9, sq / 9;
      ghost var words := lines[..];
      lines[y] := lines[y] + {x};
      lines[10 + x] := lines[10 + x] + {y};
      Shown(words, sq, true);
      occupied := occupied + {sq};
    }

    method ChangeBit(sq: nat)
      requires Valid() && sq < 90
      modifies this, lines
      ensures Valid() && occupied == if sq in old(occupied) then old(occupied) - {sq} else old(occupied) + {sq}
    {
      hide RowShows, ColumnShows;
      var x, y := sq % 9, sq / 9;
      ghost var words, on := lines[..], sq !in occupied;
      BitShown(lines[y], lines[10 + x], occupied, sq);
      lines[y] := if x in lines[y] then lines[y] - {x} else lines[y] + {x};
      lines[10 + x] := if y in lines[10 + x] then lines[10 + x] - {y} else lines[10 + x] + {y};
      Shown(words, sq, on);
      occupied := if sq in occupied then occupied - {sq} else occupied + {sq};
    }

    /** The words that show a square after it was filled or emptied. */
    lemma Shown(words: seq<set<nat>>, sq: nat, on: bool)
      requires lines.Length == |words| == 20 && sq < 90
      requires forall y :: 0 <= y < 10 ==> RowShows(words[y], occupied, y)
      requires forall i :: 10 <= i < 19 ==> ColumnShows(words[i], occupied, i - 10)
      requires forall i :: 0 <= i < 20 ==>
                 lines[i] == if i == sq / 9 then Switched(words[i], sq % 9, on)
                             else if i == 10 + sq % 9 then Switched(words[i], sq / 9, on) else words[i]
      ensures forall y :: 0 <= y < 10 ==> RowShows(lines[y], Switched(occupied, sq, on), y)
      ensures forall i :: 10 <= i < 19 ==> ColumnShows(lines[i], Switched(occupied, sq, on), i - 10)
    {
      hide RowShows, ColumnShows, Switched;
      forall i | 0 <= i < 19
        ensures i < 10 ==> RowShows(lines[i], Switched(occupied, sq, on), i)
        ensures i >= 10 ==> ColumnShows(lines[i], Switched(occupied, sq, on), i - 10)
      {
        LinesAfter(occupied, sq, on, words[i], if i < 10 then i else i - 10);
      }
    }

    static lemma BitShown(row: set<nat>, column: set<nat>, occupied: set<nat>, sq: nat)
      requires sq < 90 && RowShows(row, occupied, sq / 9) && ColumnShows(column, occupied, sq % 9)
      ensures sq % 9 in row <==> sq in occupied
      ensures sq / 9 in column <==> sq in occupied
    {
    }

    method DoMove(src: nat, dst: nat)
      requires Valid() && src < 90 && dst < 90 && src != dst && src in occupied
      modifies this, lines
      ensures Valid() && occupied == old(occupied) - {src} + {dst}
    {
      ChangeBit(src);
      SetBit(dst);
    }

    method UndoMove(src: nat, dst: nat, captured: nat)
      requires Valid() && src < 90 && dst < 90 && src != dst && src !in occupied && dst in occupied
      modifies this, lines
      ensures Valid() && occupied == (if captured == EMPTY then old(occupied) - {dst} else old(occupied)) + {src}
    {
      if captured == EMPTY { ChangeBit(dst); }
      ChangeBit(src);
    }
  }

  class XQ {
    const rules: Rules
    const bitmap: Bitmap
    const pieces: array<nat>   // 34 slots; slot 32 is written for empty squares and never read
    const squares: array<nat>  // 91 squares, the last one off the board
    var player: nat

    ghost predicate Shaped()
      reads this
    {
      pieces.Length == 34 && squares.Length == 91 && pieces != squares
    }

    ghost function State(): Position
      requires Shaped()
      reads this, pieces, squares
    {
      Position(squares[..], pieces[..32], player)
    }

    method Read() returns (p: Position)
      requires Shaped()
      ensures p == State()
    {
      p := Position(squares[..], pieces[..32], player);
    }

    /** The bit words show exactly the squares that are not empty. */
    ghost predicate Shown()
      requires Shaped()
      reads this, squares, bitmap
    {
      forall s: nat :: s in bitmap.occupied <==> s < 90 && squares[s] != EMPTY
    }

    ghost predicate Valid()
      reads this, pieces, squares, bitmap, bitmap.lines
    {
      Shaped() && Consistent(State()) && bitmap.Valid() && Shown()
    }

    /** The engine's own copy of a position. */
    constructor (rules: Rules, p: Position)
      requires Consistent(p)
      ensures Valid() && State() == p && this.rules == rules
      ensures fresh(pieces) && fresh(squares) && fresh(bitmap) && fresh(bitmap.lines)
    {
      hide Consistent;
      this.rules, player := rules, p.player;
      pieces := new nat[34](i => if 0 <= i < |p.pieces| then p.pieces[i] else NOWHERE);
      squares := new nat[91](i => if 0 <= i < |p.squares| then p.squares[i] else EMPTY);
      bitmap := new Bitmap();
      new;
      Sizes(p);
      assert State() == p by {
        assert squares[..] == p.squares;
        assert pieces[..32] == p.pieces;
      }
      SetBits();
    }

    lemma Sizes(p: Position)
      requires Consistent(p)
      ensures |p.squares| == 91 && |p.pieces| == 32
    {
    }

    /** Sets the bits of an empty board, man by man. */
    method SetBits()
      requires Shaped() && Consistent(State()) && bitmap.Valid() && bitmap.occupied == {}
      modifies bitmap, bitmap.lines
      ensures Valid() && State() == old(State())
    {
      ghost var p := State();
      for i := 0 to 32
        invariant bitmap.Valid()
        invariant State() == p
        invariant forall s: nat :: s in bitmap.occupied <==> s < 90 && squares[s] < i
      {
        assert pieces[i] == p.pieces[i];
        if pieces[i] != NOWHERE {
          bitmap.SetBit(pieces[i]);
        }
      }
    }

    /** Tries a move: it stays made unless it leaves the mover in check. */
    method DoMove(src: nat, dst: nat) returns (made: bool)
      requires Valid() && Movable(State(), src, dst)
      modifies this`player, pieces, squares, bitmap, bitmap.lines
      ensures Valid()
      ensures made <==> !rules.inCheck(Placed(old(State()), src, dst), old(player))
      ensures State() == if made then Moved(old(State()), src, dst) else old(State())
    {
      hide Consistent, Movable, Unmovable;
      ghost var p := State();
      UnmoveIsInverse(p, src, dst);
      var captured := Place(src, dst);
      var position := Read();
      if rules.inCheck(position, player) {
        TakeBack(src, dst, captured);
        return false;
      }
      Turn();
      return true;
    }

    method Place(src: nat, dst: nat) returns (captured: nat)
      requires Valid() && Movable(State(), src, dst)
      modifies pieces, squares, bitmap, bitmap.lines
      ensures Valid() && State() == Placed(old(State()), src, dst)
      ensures captured == old(State()).squares[dst]
    {
      ghost var p := State();
      var piece := squares[src];
      captured := squares[dst];
      bitmap.DoMove(src, dst);
      squares[src] := EMPTY;
      squares[dst] := piece;
      pieces[piece] := dst;
      pieces[captured] := NOWHERE;
      assert State() == Placed(p, src, dst);
    }

    /** Puts the moved and the captured piece back, and leaves the turn alone. */
    method TakeBack(src: nat, dst: nat, captured: nat)
      requires Valid() && Unmovable(State(), src, dst, captured)
      requires Consistent(Unmoved(Flipped(State()), src, dst, captured))
      modifies pieces, squares, bitmap, bitmap.lines
      ensures Valid() && State() == Unmoved(Flipped(old(State())), src, dst, captured)
    {
      ghost var p := State();
      var piece := squares[dst];
      bitmap.UndoMove(src, dst, captured);
      squares[src] := piece;
      squares[dst] := captured;
      pieces[piece] := src;
      pieces[captured] := dst;
      assert State() == Unmoved(Flipped(p), src, dst, captured);
    }

    method UndoMove(src: nat, dst: nat, captured: nat)
      requires Valid() && Unmovable(State(), src, dst, captured)
      requires Consistent(Unmoved(State(), src, dst, captured))
      modifies this`player, pieces, squares, bitmap, bitmap.lines
      ensures Valid() && State() == Unmoved(old(State()), src, dst, captured)
    {
      hide Unmoved, Unmovable;
      FlippedUnmoved(State(), src, dst, captured);
      TakeBack(src, dst, captured);
      Turn();
    }

    method Turn()
      requires Valid()
      modifies this`player
      ensures Valid() && State() == Flipped(old(State()))
    {
      player := 1 - player;
    }

    method DoNull()
      requires Valid()
      modifies this`player
      ensures Valid() && State() == Flipped(old(State()))
    {
      Turn();
    }
  }
}
