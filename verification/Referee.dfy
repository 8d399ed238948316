/** The referee's board: the same position kept as cells, as a list of active pieces and
    in the pieces themselves, with moves tried by making them and taking them back. */
module Referee {
  import opened Xiangqi
  import opened Lists
  import opened Games

  class Piece {
    const kind: Kind
    const color: Color
    var position: Pos

    constructor (kind: Kind, color: Color, position: Pos)
      ensures this.kind == kind && this.color == color && this.position == position
    {
      this.kind, this.color, this.position := kind, color, position;
    }

    function Info(): Man {
      Man(kind, color)
    }
  }

  /** The pieces of one colour, in list order. */
  ghost function Own(s: seq<Piece>, c: Color): seq<Piece> {
    if s == [] then [] else (if s[0].color == c then [s[0]] else []) + Own(s[1..], c)
  }

  lemma {:induction false} OwnConcat(s: seq<Piece>, t: seq<Piece>, c: Color)
    ensures Own(s + t, c) == Own(s, c) + Own(t, c)
  {
    hide Own;
    OwnNone(c);
    if s == [] {
      assert s + t == t;
      assert [] + Own(t, c) == Own(t, c);
    } else {
      var head := if s[0].color == c then [s[0]] else [];
      OwnStep(s, c);
      OwnStep(s + t, c);
      assert (s + t)[1..] == s[1..] + t;
      OwnConcat(s[1..], t, c);
      assert head + (Own(s[1..], c) + Own(t, c)) == (head + Own(s[1..], c)) + Own(t, c);
    }
  }

  lemma {:induction false} OwnMembers(s: seq<Piece>, c: Color)
    ensures forall p :: p in Own(s, c) <==> p in s && p.color == c
  {
    if s != [] {
      OwnMembers(s[1..], c);
      assert s == [s[0]] + s[1..];
    }
  }

  lemma {:induction false} OwnWithoutEnemy(s: seq<Piece>, x: Piece, c: Color)
    requires x in s && x.color != c
    ensures Own(Without(s, x), c) == Own(s, c)
  {
    hide Own, Without;
    OwnStep(s, c);
    WithoutStep(s, x);
    if s[0] == x {
      assert [] + Own(s[1..], c) == Own(s[1..], c);
    } else {
      var rest := Without(s[1..], x);
      assert ([s[0]] + rest)[1..] == rest;
      OwnStep([s[0]] + rest, c);
      OwnWithoutEnemy(s[1..], x, c);
    }
  }

  /** Capturing an enemy and putting him back sends him to the end of the list; the
      pieces of the other side stay in the order they had. */
  lemma OwnSurvivesRequeue(s: seq<Piece>, x: Piece, c: Color)
    requires x in s && x.color != c
    ensures Own(Without(s, x) + [x], c) == Own(s, c)
  {
    hide Own, Without;
    OwnWithoutEnemy(s, x, c);
    OwnConcat(Without(s, x), [x], c);
    OwnStep([x], c);
    OwnNone(c);
    assert [x][1..] == [];
    assert Own(s, c) + [] == Own(s, c);
  }

  lemma OwnNone(c: Color)
    ensures Own([], c) == []
  {
  }

  /** The part of a list an iterator standing on `it` has still to visit; null is end(). */
  ghost function Tail(s: seq<Piece>, it: Piece?): seq<Piece>
    requires it == null || it in s
    ensures it != null ==> Tail(s, it) != [] && Tail(s, it)[0] == it
  {
    if it == null then [] else s[IndexOf(s, it)..]
  }

  lemma TailEnds(s: seq<Piece>)
    ensures Tail(s, null) == [] && forall c :: Own([], c) == []
    ensures s != [] ==> Tail(s, s[0]) == s
  {
  }

  lemma OwnStep(s: seq<Piece>, c: Color)
    requires s != []
    ensures Own(s, c) == (if s[0].color == c then [s[0]] else []) + Own(s[1..], c)
  {
  }

  /** Rearranging the enemies does not change which pieces of its own side an iterator
      on a piece of that side has still to visit. */
  lemma OwnTailStable(s: seq<Piece>, s': seq<Piece>, it: Piece, c: Color)
    requires NoDup(s) && NoDup(s') && it in s && it in s' && it.color == c
    requires Own(s, c) == Own(s', c)
    ensures Own(Tail(s, it), c) == Own(Tail(s', it), c)
  {
    OwnSplit(s, it);
    OwnSplit(s', it);
    var i, i' := IndexOf(s, it), IndexOf(s', it);
    SplitUnique(Own(s[..i], c), Own(s[i + 1..], c), Own(s'[..i'], c), Own(s'[i' + 1..], c), it);
  }

  lemma OwnSplit(s: seq<Piece>, it: Piece)
    requires it in s
    ensures var i, c := IndexOf(s, it), it.color;
            && Own(s, c) == Own(s[..i], c) + Own(Tail(s, it), c)
            && Own(Tail(s, it), c) == [it] + Own(s[i + 1..], c)
            && it !in Own(s[..i], c)
  {
    hide Own;
    var i, c := IndexOf(s, it), it.color;
    var before, rest := s[..i], Tail(s, it);
    assert s == before + rest;
    assert rest[1..] == s[i + 1..];
    OwnConcat(before, rest, c);
    OwnStep(rest, c);
    OwnMembers(before, c);
  }

  // The initial placement in the order in which the pieces are put on the board.

  function SetupPos(j: nat): Pos {
    var k := j % 16;
    var home := if j < 16 then 0 else 9;
    var inward := if j < 16 then 1 else -1;
    if k <= 8 then Pos(if k % 2 == 0 then 4 + k / 2 else 4 - (k + 1) / 2, home)
    else if k <= 10 then Pos(if k == 9 then 1 else 7, home + 2 * inward)
    else Pos(2 * (k - 11), home + 3 * inward)
  }

  function SetupMan(j: nat): Man {
    var k := j % 16;
    Man(if k <= 8 then BackRow(SetupPos(j).x) else if k <= 10 then Cannon else Pawn,
        if j < 16 then Black else Red)
  }

  /** The place of a square in that order; 32 for a square left empty. */
  ghost function SetupIndex(q: Pos): (j: nat)
    ensures j <= 32
    ensures j < 32 ==> SetupPos(j) == q && InitialMan(q) == Some(SetupMan(j))
    ensures j == 32 ==> InitialMan(q) == None
  {
    var side := if q.y <= 4 then 0 else 16;
    if InitialMan(q) == None then 32
    else if q.y == 0 || q.y == 9 then
      side + (if q.x >= 4 then 2 * (q.x - 4) else 2 * (4 - q.x) - 1)
    else if q.y == 2 || q.y == 7 then side + (if q.x == 1 then 9 else 10)
    else side + 11 + q.x / 2
  }

  lemma SetupIndexed(j: nat)
    requires j < 32
    ensures SetupIndex(SetupPos(j)) == j && SetupPos(j).OnBoard()
    ensures forall q :: SetupIndex(q) == j ==> q == SetupPos(j)
  {
    hide BackRow, SetupMan;
  }

  /** The placement that a table of pieces stands for. */
  ghost function Names(men: map<Pos, Piece>): (r: Placement)
    ensures r.Keys == men.Keys
    ensures forall q :: q in men ==> r[q] == men[q].Info()
  {
    map q | q in men :: men[q].Info()
  }

  lemma NamesOfStep(men: map<Pos, Piece>, p: Pos, q: Pos)
    requires p in men && q.OnBoard()
    ensures Names((men - {p})[q := men[p]]) == Step(Names(men), p, q)
  {
  }

  lemma OverwriteIsRemoveAndAdd(men: map<Pos, Piece>, p: Pos, q: Pos, x: Piece)
    ensures ((men - {q}) - {p})[q := x] == (men - {p})[q := x]
  {
  }

  lemma UndoOfStep(men: map<Pos, Piece>, p: Pos, q: Pos)
    requires p in men && p != q
    ensures var after := (men - {p})[q := men[p]];
            if q in men then (after - {q})[p := after[q]][q := men[q]] == men
            else (after - {q})[p := after[q]] == men
  {
  }

  class Board {
    var pieces: seq<Piece>            // active pieces
    var dead: seq<Piece>              // captured pieces
    const cells: array2<Piece?>
    var nextColor: Color
    ghost const roster: set<Piece>    // the pieces the board was set up with
    ghost var men: map<Pos, Piece>    // what the cells show

    // ------------------------------------------------------------------------
    // Invariant and meaning
    // ------------------------------------------------------------------------

    ghost predicate Mirrored()
      reads this, cells
    {
      && cells.Length0 == 9 && cells.Length1 == 10
      && (forall q: Pos :: q in men ==> q.OnBoard())
      && (forall x, y :: 0 <= x < 9 && 0 <= y < 10 ==>
            cells[x, y] == if Pos(x, y) in men then men[Pos(x, y)] else null)
    }

    function GetPieceAt(q: Pos): (r: Piece?)
      requires Mirrored()
      reads this, cells
      ensures r == if q in men then men[q] else null
    {
      if q.OnBoard() then cells[q.x, q.y] else null
    }

    predicate HasPieceAt(q: Pos)
      requires Mirrored()
      reads this, cells
    {
      GetPieceAt(q) != null
    }

    /** The three representations agree: cells and active pieces are in bijection, and
        every piece of the roster is either active or dead. */
    ghost predicate Consistent()
      reads this, cells, roster
    {
      && Mirrored()
      && NoDup(pieces) && NoDup(dead) && |pieces| + |dead| == 32
      && (forall p :: p in pieces ==> p in roster && p !in dead)
      && (forall p :: p in dead ==> p in roster)
      && (forall p :: p in roster ==> p in pieces || p in dead)
      && (forall p :: p in pieces ==> p.position in men && men[p.position] == p)
      && (forall q :: q in men ==> men[q] in pieces && men[q].position == q)
    }

    ghost function State(): Game
      reads this
    {
      Game(Names(men), nextColor)
    }

    ghost predicate Valid()
      reads this, cells, roster
    {
      Consistent() && Sound(State())
    }

    /** Turn, positions and dead list are as they were, and so are the cells, being what
        `men` says; the active list may have been rearranged, but not among the pieces of
        the side to move. */
    twostate predicate Restored()
      reads this, roster
    {
      && nextColor == old(nextColor)
      && men == old(men)
      && dead == old(dead)
      && (forall p :: p in roster ==> p.position == old(p.position))
      && Own(pieces, nextColor) == old(Own(pieces, nextColor))
    }

    /** A new game, set up in the order Black, then Red; king, advisors, elephants, horses,
        chariots, cannons, pawns. */
    constructor (first: Color)
      ensures Valid() && State() == Game(InitialMen(), first)
      ensures fresh(this) && fresh(cells) && fresh(roster) && dead == []
    {
      hide SetupPos, SetupMan, SetupIndex, InitialMen, Sound, Consistent, NoDup;
      var all := NewPieces();
      pieces, dead, nextColor, men := [], [], first, map[];
      roster := set p | p in all;
      cells := new Piece?[9, 10]((x, y) => null);
      new;
      for j := 0 to 32
        invariant Mirrored() && pieces == all[..j] && dead == [] && nextColor == first
        invariant forall i :: 0 <= i < 32 ==> all[i].Info() == SetupMan(i) && all[i].position == SetupPos(i)
        invariant forall q :: q in men <==> SetupIndex(q) < j
        invariant forall q :: q in men ==> men[q] == all[SetupIndex(q)]
      {
        SetupIndexed(j);
        OneLonger(all, j);
        AddPiece(all[j]);
      }
      WholeSlice(all);
      SetUp();
      InitialSound(first);
    }

    static method NewPieces() returns (all: seq<Piece>)
      ensures |all| == 32
      ensures forall i :: 0 <= i < 32 ==> fresh(all[i]) && all[i].Info() == SetupMan(i) && all[i].position == SetupPos(i)
    {
      hide SetupPos, SetupMan;
      all := [];
      for j := 0 to 32
        invariant |all| == j
        invariant forall i :: 0 <= i < j ==> fresh(all[i]) && all[i].Info() == SetupMan(i) && all[i].position == SetupPos(i)
      {
        var piece := new Piece(SetupMan(j).kind, SetupMan(j).color, SetupPos(j));
        all := all + [piece];
      }
    }

    lemma SetUp()
      requires Mirrored() && dead == [] && |pieces| == 32 && roster == set p | p in pieces
      requires forall i :: 0 <= i < 32 ==> pieces[i].Info() == SetupMan(i) && pieces[i].position == SetupPos(i)
      requires forall q :: q in men <==> SetupIndex(q) < 32
      requires forall q :: q in men ==> men[q] == pieces[SetupIndex(q)]
      ensures Consistent() && Names(men) == InitialMen()
    {
      hide SetupPos, SetupMan, SetupIndex;
      forall i | 0 <= i < 32
        ensures SetupIndex(SetupPos(i)) == i
      {
        SetupIndexed(i);
      }
    }

    // ------------------------------------------------------------------------
    // Cells and lists
    // ------------------------------------------------------------------------

    method SetPiece(piece: Piece)
      requires Mirrored()
      modifies this`men, cells
      ensures Mirrored()
      ensures men == if piece.position.OnBoard() && piece.position !in old(men)
                     then old(men)[piece.position := piece] else old(men)
    {
      var pos := piece.position;
      if !pos.OnBoard() { return; }
      if cells[pos.x, pos.y] != null { return; }
      cells[pos.x, pos.y] := piece;
      men := men[pos := piece];
    }

    method UnsetPiece(piece: Piece)
      requires Mirrored()
      modifies this`men, cells
      ensures Mirrored()
      ensures men == if piece.position in old(men) && old(men)[piece.position] == piece
                     then old(men) - {piece.position} else old(men)
    {
      var pos := piece.position;
      if !pos.OnBoard() { return; }
      if cells[pos.x, pos.y] != piece { return; }
      cells[pos.x, pos.y] := null;
      men := men - {pos};
    }

    method CapturePiece(piece: Piece)
      requires Consistent() && piece in pieces
      modifies this`men, this`pieces, this`dead, cells
      ensures Consistent()
      ensures pieces == Without(old(pieces), piece) && dead == old(dead) + [piece]
      ensures men == old(men) - {piece.position}
    {
      UnsetPiece(piece);
      WithoutRemoves(pieces, piece);
      pieces := Without(pieces, piece);
      dead := dead + [piece];
    }

    method MovePieceTo(piece: Piece, newPos: Pos)
      requires Consistent() && piece in pieces && newPos !in men
      modifies this`men, cells, piece`position
      ensures Consistent()
      ensures piece.position == if newPos.OnBoard() then newPos else old(piece.position)
      ensures men == if newPos.OnBoard() then (old(men) - {old(piece.position)})[newPos := piece] else old(men)
    {
      hide Mirrored;
      if !newPos.OnBoard() { return; }
      UnsetPiece(piece);
      piece.position := newPos;
      SetPiece(piece);
    }

    method AddPiece(piece: Piece)
      requires Mirrored()
      modifies this`men, this`pieces, cells
      ensures Mirrored()
      ensures pieces == old(pieces) + [piece]
      ensures men == if piece.position.OnBoard() && piece.position !in old(men)
                     then old(men)[piece.position := piece] else old(men)
    {
      pieces := pieces + [piece];
      SetPiece(piece);
    }

    method PutbackPiece(piece: Piece)
      requires Consistent() && piece in dead
      requires piece.position.OnBoard() && piece.position !in men
      modifies this`men, this`pieces, this`dead, cells
      ensures Consistent()
      ensures pieces == old(pieces) + [piece] && dead == Without(old(dead), piece)
      ensures men == old(men)[piece.position := piece]
    {
      WithoutRemoves(dead, piece);
      dead := Without(dead, piece);
      AddPiece(piece);
    }

    /** What the cells say about one square. */
    lemma Settled(q: Pos)
      requires Consistent()
      ensures Mirrored()
      ensures q in men ==> q.OnBoard() && men[q] in pieces && men[q] in roster && men[q].position == q
    {
    }

    lemma DeadSettled(p: Piece)
      requires Consistent() && p in dead
      ensures p in roster && p !in pieces
    {
    }

    /** The state a recorded move leaves, in terms of the table and the lists before it. */
    ghost predicate JustRecorded(from: Pos, to: Pos, captured: Piece?,
                             men0: map<Pos, Piece>, pieces0: seq<Piece>, dead0: seq<Piece>)
      reads this, men0.Values
    {
      && from in men0 && from != to
      && captured == (if to in men0 then men0[to] else null)
      && men == (if to.OnBoard() then (men0 - {from})[to := men0[from]] else men0)
      && men0[from].position == (if to.OnBoard() then to else from)
      && (captured != null ==> captured.position == to)
      && if captured == null then pieces == pieces0 && dead == dead0
         else pieces == Without<Piece>(pieces0, captured) && dead == dead0 + [captured]
    }

    lemma RecordedNames(from: Pos, to: Pos, captured: Piece?,
                        men0: map<Pos, Piece>, pieces0: seq<Piece>, dead0: seq<Piece>)
      requires JustRecorded(from, to, captured, men0, pieces0, dead0)
      ensures Names(men) == Step(Names(men0), from, to)
    {
      if to.OnBoard() {
        NamesOfStep(men0, from, to);
      }
    }

    method RecordMove(from: Pos, to: Pos) returns (captured: Piece?)
      requires Consistent() && from in men && from != to
      modifies this`men, this`pieces, this`dead, cells, roster`position
      ensures Consistent() && nextColor == old(nextColor)
      ensures JustRecorded(from, to, captured, old(men), old(pieces), old(dead))
      ensures forall p :: p in roster && p != old(men)[from] ==> p.position == old(p.position)
    {
      hide Consistent, Mirrored;
      ghost var was := men;
      Settled(to);
      Settled(from);
      captured := GetPieceAt(to);
      if captured != null {
        CapturePiece(captured);
      }
      assert men == was - {to};
      Settled(from);
      var piece := GetPieceAt(from);
      MovePieceTo(piece, to);
      OverwriteIsRemoveAndAdd(was, from, to, piece);
    }

    /** Takes back the move from `from` to `to`.  After an off-board target there is no
        piece to be found at `to`, and nothing to take back. */
    method UndoMove(from: Pos, to: Pos, captured: Piece?)
      requires Consistent() && from.OnBoard() && from != to
      requires to.OnBoard() ==> to in men && from !in men
      requires captured != null ==> to.OnBoard() && captured in dead
      modifies this`men, this`pieces, this`dead, cells, roster`position
      ensures Consistent()
      ensures captured == null ==> pieces == old(pieces) && dead == old(dead)
      ensures captured != null ==> pieces == old(pieces) + [captured] && dead == Without<Piece>(old(dead), captured)
      ensures !to.OnBoard() ==> men == old(men)
      ensures to.OnBoard() ==>
                && men == (if captured == null then (old(men) - {to})[from := old(men)[to]]
                           else (old(men) - {to})[from := old(men)[to]][to := captured])
                && old(men)[to].position == from
      ensures captured != null ==> captured.position == to
      ensures forall p :: p in roster && p != captured && (to.OnBoard() ==> p != old(men)[to]) ==>
                p.position == old(p.position)
    {
      hide Consistent, Mirrored;
      Settled(to);
      if captured != null {
        DeadSettled(captured);
      }
      var piece := GetPieceAt(to);
      if piece == null { return; }
      assert piece.position == to;
      MovePieceTo(piece, from);
      if captured != null {
        PutbackAt(captured, to);
      }
    }

    method PutbackAt(captured: Piece, to: Pos)
      requires Consistent() && captured in dead && to.OnBoard() && to !in men
      modifies this`men, this`pieces, this`dead, cells, captured`position
      ensures Consistent()
      ensures pieces == old(pieces) + [captured] && dead == Without(old(dead), captured)
      ensures men == old(men)[to := captured] && captured.position == to
    {
      captured.position := to;
      PutbackPiece(captured);
    }

    /** Undoing what was recorded is the identity, except that a captured piece comes
        back at the end of the active list. */
    method UndoRecorded(from: Pos, to: Pos, captured: Piece?,
                        ghost men0: map<Pos, Piece>, ghost pieces0: seq<Piece>, ghost dead0: seq<Piece>,
                        ghost c: Color)
      requires Consistent() && from.OnBoard()
      requires captured != null ==> captured in pieces0 && captured.color != c
      requires JustRecorded(from, to, captured, men0, pieces0, dead0)
      modifies this`men, this`pieces, this`dead, cells, roster`position
      ensures Consistent() && nextColor == old(nextColor)
      ensures men == men0 && dead == dead0
      ensures pieces == if captured == null then pieces0 else Without<Piece>(pieces0, captured) + [captured]
      ensures Own(pieces, c) == Own(pieces0, c)
      ensures men0[from].position == from
      ensures forall p :: p in roster && p != men0[from] ==> p.position == old(p.position)
    {
      UndoOfStep(men0, from, to);
      if captured != null {
        LastIsNew(dead0, captured);
        OwnSurvivesRequeue(pieces0, captured, c);
        WithoutLast(dead0, captured);
      }
      UndoMove(from, to, captured);
    }

    // ------------------------------------------------------------------------
    // How the pieces move
    // ------------------------------------------------------------------------

    predicate KingCanMoveTo(p: Piece, to: Pos)
      requires Mirrored()
      requires p.kind == King
      reads this, cells, p
      ensures KingCanMoveTo(p, to) <==> Reaches(Names(men), p.Info(), p.position, to)
    {
      && to.InPalace(p.color)
      && ((Abs(to.x - p.position.x) == 1 && to.y == p.position.y) ||
          (to.x == p.position.x && Abs(to.y - p.position.y) == 1))
    }

    predicate AdvisorCanMoveTo(p: Piece, to: Pos)
      requires Mirrored()
      requires p.kind == Advisor
      reads this, cells, p
      ensures AdvisorCanMoveTo(p, to) <==> Reaches(Names(men), p.Info(), p.position, to)
    {
      && to.InPalace(p.color)
      && Abs(to.x - p.position.x) == 1 && Abs(to.y - p.position.y) == 1
    }

    // Both sums are even when they are halved, so rounding plays no part.
    predicate ElephantCanMoveTo(p: Piece, to: Pos)
      requires Mirrored()
      requires p.kind == Elephant
      reads this, cells, p
      ensures ElephantCanMoveTo(p, to) <==> Reaches(Names(men), p.Info(), p.position, to)
    {
      && to.InCountry(p.color)
      && Abs(to.x - p.position.x) == 2 && Abs(to.y - p.position.y) == 2
      && !HasPieceAt(Pos((p.position.x + to.x) / 2, (p.position.y + to.y) / 2))
    }

    predicate HorseCanMoveTo(p: Piece, to: Pos)
      requires Mirrored()
      requires p.kind == Horse
      reads this, cells, p
      ensures HorseCanMoveTo(p, to) <==> Reaches(Names(men), p.Info(), p.position, to)
    {
      var cur := p.position;
      if cur.y - 2 == to.y && Abs(to.x - cur.x) == 1 then !HasPieceAt(Pos(cur.x, cur.y - 1))
      else if cur.y + 2 == to.y && Abs(to.x - cur.x) == 1 then !HasPieceAt(Pos(cur.x, cur.y + 1))
      else if cur.x + 2 == to.x && Abs(to.y - cur.y) == 1 then !HasPieceAt(Pos(cur.x + 1, cur.y))
      else if cur.x - 2 == to.x && Abs(to.y - cur.y) == 1 then !HasPieceAt(Pos(cur.x - 1, cur.y))
      else false
    }

    predicate PawnCanMoveTo(p: Piece, to: Pos)
      requires Mirrored()
      requires p.kind == Pawn
      reads this, cells, p
      ensures PawnCanMoveTo(p, to) <==> Reaches(Names(men), p.Info(), p.position, to)
    {
      var cur := p.position;
      var ahead := to.x == cur.x && ((p.color == Black && to.y == cur.y + 1) || (p.color == Red && to.y == cur.y - 1));
      if to.InCountry(p.color) then ahead
      else (to.y == cur.y && Abs(to.x - cur.x) == 1) || ahead
    }

    /** The squares strictly between two aligned positions. */
    method MiddleOf(cur: Pos, to: Pos) returns (middle: seq<Pos>)
      requires Aligned(cur, to)
      ensures NoDup(middle)
      ensures forall z :: z in middle <==> Between(cur, z, to)
    {
      middle := [];
      if to.y < cur.y {
        for i := to.y + 1 to cur.y
          invariant NoDup(middle)
          invariant forall z :: z in middle <==> z.x == cur.x && to.y < z.y < i
        {
          middle := middle + [Pos(cur.x, i)];
        }
      } else if to.x > cur.x {
        for i := cur.x + 1 to to.x
          invariant NoDup(middle)
          invariant forall z :: z in middle <==> z.y == cur.y && cur.x < z.x < i
        {
          middle := middle + [Pos(i, cur.y)];
        }
      } else if to.y > cur.y {
        for i := cur.y + 1 to to.y
          invariant NoDup(middle)
          invariant forall z :: z in middle <==> z.x == cur.x && cur.y < z.y < i
        {
          middle := middle + [Pos(cur.x, i)];
        }
      } else if to.x < cur.x {
        for i := to.x + 1 to cur.x
          invariant NoDup(middle)
          invariant forall z :: z in middle <==> z.y == cur.y && to.x < z.x < i
        {
          middle := middle + [Pos(i, cur.y)];
        }
      }
    }

    method ChariotCanMoveTo(p: Piece, to: Pos) returns (r: bool)
      requires Mirrored()
      requires p.kind == Chariot
      ensures r <==> Reaches(Names(men), p.Info(), p.position, to)
    {
      var cur := p.position;
      if !((to.x != cur.x && to.y == cur.y) || (to.x == cur.x && to.y != cur.y)) {
        return false;
      }
      var middle := MiddleOf(cur, to);
      ghost var screens := Screens(Names(men), cur, to);
      for i := 0 to |middle|
        invariant forall j :: 0 <= j < i ==> !HasPieceAt(middle[j])
      {
        if HasPieceAt(middle[i]) {
          assert middle[i] in screens;
          return false;
        }
      }
      assert forall z :: z in middle ==> !HasPieceAt(z);
      return true;
    }

    method CountPieces(middle: seq<Pos>) returns (n: nat)
      requires Mirrored() && NoDup(middle)
      ensures n == |set z | z in middle && HasPieceAt(z)|
    {
      n := 0;
      ghost var seen: set<Pos> := {};
      for i := 0 to |middle|
        invariant n == |seen|
        invariant forall z :: z in seen <==> z in middle[..i] && HasPieceAt(z)
      {
        if HasPieceAt(middle[i]) {
          seen := seen + {middle[i]};
          n := n + 1;
        }
      }
      assert seen == set z | z in middle && HasPieceAt(z);
    }

    method CannonCanMoveTo(p: Piece, to: Pos) returns (r: bool)
      requires Mirrored()
      requires p.kind == Cannon
      ensures r <==> Reaches(Names(men), p.Info(), p.position, to)
    {
      var cur := p.position;
      if !((to.x != cur.x && to.y == cur.y) || (to.x == cur.x && to.y != cur.y)) {
        return false;
      }
      var middle := MiddleOf(cur, to);
      var numMiddle := CountPieces(middle);
      assert (set z | z in middle && HasPieceAt(z)) == Screens(Names(men), cur, to);
      if numMiddle > 1 {
        return false;
      } else if numMiddle == 1 {
        var captured := GetPieceAt(to);
        if captured == null || captured.color == p.color { return false; }
      } else {
        if HasPieceAt(to) { return false; }
      }
      return true;
    }

    /** Dispatch on the kind stands for the virtual call. */
    method CanMoveTo(p: Piece, to: Pos) returns (r: bool)
      requires Mirrored()
      ensures r <==> Reaches(Names(men), p.Info(), p.position, to)
    {
      match p.kind
      case King => r := KingCanMoveTo(p, to);
      case Advisor => r := AdvisorCanMoveTo(p, to);
      case Elephant => r := ElephantCanMoveTo(p, to);
      case Chariot => r := ChariotCanMoveTo(p, to);
      case Horse => r := HorseCanMoveTo(p, to);
      case Cannon => r := CannonCanMoveTo(p, to);
      case Pawn => r := PawnCanMoveTo(p, to);
    }

    method IsValidMove(p: Piece, to: Pos) returns (r: bool)
      requires Consistent() && p in pieces
      ensures r <==> CanGo(Names(men), p.position, to)
    {
      r := CanMoveTo(p, to);
      if !r { return; }
      var captured := GetPieceAt(to);
      if captured != null && captured.color == p.color { return false; }
    }

    // ------------------------------------------------------------------------
    // Check
    // ------------------------------------------------------------------------

    method GetKing(c: Color) returns (king: Piece)
      requires Consistent() && OneKing(Names(men), c)
      ensures king in pieces && KingAt(Names(men), king.position, c)
    {
      ghost var k :| KingAt(Names(men), k, c);
      ghost var target := GetPieceAt(k);
      for i := 0 to |pieces|
        invariant target !in pieces[..i]
      {
        if pieces[i].kind == King && pieces[i].color == c {
          return pieces[i];
        }
      }
      assert false;
    }

    method IsKingBeingChecked(c: Color) returns (r: bool)
      requires Consistent() && OneKing(Names(men), c)
      ensures r <==> Attacked(Names(men), c)
    {
      hide Consistent, Reaches, Attacked, OneKing;
      var king := GetKing(c);
      for i := 0 to |pieces|
        invariant forall j :: 0 <= j < i && pieces[j].color != c ==> !CanGo(Names(men), pieces[j].position, king.position)
      {
        if pieces[i].color != c {
          var attacks := IsValidMove(pieces[i], king.position);
          if attacks {
            Attacks(pieces[i], king.position, c);
            return true;
          }
        }
      }
      NobodyAttacks(king.position, c);
      return false;
    }

    lemma Attacks(p: Piece, k: Pos, c: Color)
      requires Consistent() && p in pieces && p.color != c && KingAt(Names(men), k, c)
      requires CanGo(Names(men), p.position, k)
      ensures Attacked(Names(men), c)
    {
    }

    lemma NobodyAttacks(k: Pos, c: Color)
      requires Consistent() && OneKing(Names(men), c) && KingAt(Names(men), k, c)
      requires forall j :: 0 <= j < |pieces| && pieces[j].color != c ==> !CanGo(Names(men), pieces[j].position, k)
      ensures !Attacked(Names(men), c)
    {
      hide Reaches;
      forall p, z | CanGo(Names(men), p, z) && KingAt(Names(men), z, c)
        ensures men[p].color == c
      {
        assert z == k && men[p] in pieces;
      }
    }

    method IsKingFaceKing() returns (r: bool)
      requires Consistent() && OneKing(Names(men), Red) && OneKing(Names(men), Black)
      ensures r <==> Facing(Names(men))
    {
      hide Consistent, Facing, OneKing;
      var blackKing := GetKing(Black);
      var redKing := GetKing(Red);
      FacingKings(Names(men), redKing.position, blackKing.position);
      if blackKing.position.x != redKing.position.x { return false; }
      var screened := IsColumnScreened(blackKing, redKing);
      r := !screened;
    }

    /** The loop of the test for facing kings: some third piece is on Red's column. */
    method IsColumnScreened(blackKing: Piece, redKing: Piece) returns (r: bool)
      requires Consistent() && blackKing in pieces && redKing in pieces
      ensures r <==> exists z :: z in men && z != blackKing.position && z != redKing.position && z.x == redKing.position.x
    {
      for i := 0 to |pieces|
        invariant forall j :: 0 <= j < i ==>
                    pieces[j] == blackKing || pieces[j] == redKing || pieces[j].position.x != redKing.position.x
      {
        if pieces[i] == blackKing || pieces[i] == redKing { continue; }
        if pieces[i].position.x == redKing.position.x {
          assert pieces[i].position in men;
          return true;
        }
      }
      return false;
    }

    // ------------------------------------------------------------------------
    // Is there a reply?
    // ------------------------------------------------------------------------

    function AroundOrthogonal(p: Pos): seq<Pos> {
      [Pos(p.x, p.y - 1), Pos(p.x, p.y + 1), Pos(p.x - 1, p.y), Pos(p.x + 1, p.y)]
    }

    function AroundDiagonal(p: Pos, d: int): seq<Pos> {
      [Pos(p.x - d, p.y - d), Pos(p.x - d, p.y + d), Pos(p.x + d, p.y - d), Pos(p.x + d, p.y + d)]
    }

    function AroundHorse(p: Pos): seq<Pos> {
      [Pos(p.x - 1, p.y - 2), Pos(p.x - 1, p.y + 2), Pos(p.x - 2, p.y - 1), Pos(p.x - 2, p.y + 1),
       Pos(p.x + 1, p.y - 2), Pos(p.x + 1, p.y + 2), Pos(p.x + 2, p.y - 1), Pos(p.x + 2, p.y + 1)]
    }

    method RowAndColumn(p: Pos) returns (positions: seq<Pos>)
      ensures forall q: Pos :: q in positions <==> q.OnBoard() && q != p && (q.x == p.x || q.y == p.y) && p.OnBoard()
      requires p.OnBoard()
    {
      positions := [];
      for x := 0 to 9
        invariant forall q: Pos :: q in positions <==> 0 <= q.x < x && q.y == p.y && q != p
      {
        if x != p.x { positions := positions + [Pos(x, p.y)]; }
      }
      for y := 0 to 10
        invariant forall q: Pos :: q in positions <==>
                    (0 <= q.x < 9 && q.y == p.y && q != p) || (0 <= q.y < y && q.x == p.x && q != p)
      {
        if y != p.y { positions := positions + [Pos(p.x, y)]; }
      }
    }

    /** The targets a piece is tried on; none it could go to on the board is missing. */
    method GetPotentialNextPositions(p: Piece) returns (positions: seq<Pos>)
      requires p.position.OnBoard()
      ensures forall placement, q: Pos ::
                q.OnBoard() && Reaches(placement, p.Info(), p.position, q) ==> q in positions
    {
      hide Reaches, AroundOrthogonal, AroundDiagonal, AroundHorse;
      var cur := p.position;
      match p.kind {
        case King => positions := AroundOrthogonal(cur);
        case Advisor => positions := AroundDiagonal(cur, 1);
        case Elephant => positions := AroundDiagonal(cur, 2);
        case Horse => positions := AroundHorse(cur);
        case Pawn => positions := AroundOrthogonal(cur);
        case Chariot => positions := RowAndColumn(cur);
        case Cannon => positions := RowAndColumn(cur);
      }
      forall placement, q: Pos | q.OnBoard() && Reaches(placement, p.Info(), cur, q)
        ensures q in positions
      {
        AroundReaches(placement, p.Info(), cur, q);
      }
    }

    /** Where a man can go lies around him or on his row or column. */
    lemma AroundReaches(placement: Placement, m: Man, p: Pos, q: Pos)
      requires Reaches(placement, m, p, q)
      ensures m.kind in {King, Pawn} ==> q in AroundOrthogonal(p)
      ensures m.kind == Advisor ==> q in AroundDiagonal(p, 1)
      ensures m.kind == Elephant ==> q in AroundDiagonal(p, 2)
      ensures m.kind == Horse ==> q in AroundHorse(p)
      ensures m.kind in {Chariot, Cannon} ==> q != p && (q.x == p.x || q.y == p.y)
    {
      hide Screens, AroundOrthogonal, AroundDiagonal, AroundHorse;
      var dx, dy := q.x - p.x, q.y - p.y;
      assert q == Pos(p.x + dx, p.y + dy);
      if m.kind == Horse { OneOfEight(p, dx, dy); } else { OneOfFour(p, dx, dy); }
    }

    lemma OneOfFour(p: Pos, dx: int, dy: int)
      ensures Abs(dx) + Abs(dy) == 1 ==> Pos(p.x + dx, p.y + dy) in AroundOrthogonal(p)
      ensures Abs(dx) == 1 && Abs(dy) == 1 ==> Pos(p.x + dx, p.y + dy) in AroundDiagonal(p, 1)
      ensures Abs(dx) == 2 && Abs(dy) == 2 ==> Pos(p.x + dx, p.y + dy) in AroundDiagonal(p, 2)
    {
    }

    lemma OneOfEight(p: Pos, dx: int, dy: int)
      ensures (Abs(dx) == 1 && Abs(dy) == 2) || (Abs(dx) == 2 && Abs(dy) == 1) ==> Pos(p.x + dx, p.y + dy) in AroundHorse(p)
    {
    }

    /** Makes a move and looks whether the mover's king is now attacked, and whether the
        kings now face each other. */
    method RecordAndTest(from: Pos, to: Pos, c: Color)
      returns (captured: Piece?, beingChecked: bool, areKingsFacing: bool)
      requires Consistent() && from in men && from != to
      requires OneKing(Step(Names(men), from, to), Red) && OneKing(Step(Names(men), from, to), Black)
      modifies this`men, this`pieces, this`dead, cells, roster`position
      ensures Consistent() && nextColor == old(nextColor)
      ensures JustRecorded(from, to, captured, old(men), old(pieces), old(dead))
      ensures forall p :: p in roster && p != old(men)[from] ==> p.position == old(p.position)
      ensures Names(men) == Step(old(Names(men)), from, to)
      ensures beingChecked <==> Attacked(Names(men), c)
      ensures areKingsFacing <==> Facing(Names(men))
    {
      hide Consistent, Mirrored, Attacked, Facing, OneKing;
      captured := RecordMove(from, to);
      RecordedNames(from, to, captured, old(men), old(pieces), old(dead));
      beingChecked := IsKingBeingChecked(c);
      areKingsFacing := IsKingFaceKing();
    }

    /** Tries a move of the side to move and takes it back. */
    method SimulationIsValidMove(from: Pos, to: Pos) returns (r: bool)
      requires Valid() && to.OnBoard()
      requires from in men ==> men[from].color == nextColor
      modifies this`men, this`pieces, this`dead, cells, roster`position
      ensures Valid() && Restored()
      ensures r <==> Legal(State(), from, to)
    {
      ghost var g := State();
      if CanGo(g.men, from, to) {
        StepKeepsKings(g, from, to, Red);
        StepKeepsKings(g, from, to, Black);
      }
      r := MakeTestUndo(from, to);
      assert State() == g;
    }

    method MakeTestUndo(from: Pos, to: Pos) returns (r: bool)
      requires Consistent() && to.OnBoard()
      requires from in men ==> men[from].color == nextColor
      requires CanGo(Names(men), from, to) ==>
                 OneKing(Step(Names(men), from, to), Red) && OneKing(Step(Names(men), from, to), Black)
      modifies this`men, this`pieces, this`dead, cells, roster`position
      ensures Consistent() && Restored()
      ensures r <==> Legal(State(), from, to)
    {
      hide Consistent, Mirrored, CanGo, Attacked, Facing, OneKing, Own;
      TargetIsEnemy(Names(men), from, to);
      Settled(from);
      Settled(to);
      var piece := GetPieceAt(from);
      if piece == null { return false; }
      var possible := IsValidMove(piece, to);
      if !possible { return false; }
      var captured, beingChecked, areKingsFacing := RecordAndTest(from, to, piece.color);
      UndoRecorded(from, to, captured, old(men), old(pieces), old(dead), nextColor);
      assert forall p :: p in roster ==> p.position == old(p.position);
      r := !beingChecked && !areKingsFacing;
    }

    /** One piece tries every target it could have. */
    method PieceHasMove(p: Piece) returns (r: bool)
      requires Valid() && p in pieces && p.color == nextColor
      modifies this`men, this`pieces, this`dead, cells, roster`position
      ensures Valid() && Restored()
      ensures r <==> exists q: Pos :: q.OnBoard() && Legal(State(), p.position, q)
    {
      hide Valid, Legal, Own;
      Standing(p);
      ghost var g, from := State(), p.position;
      ghost var order := Own(pieces, nextColor);
      var positions := GetPotentialNextPositions(p);
      for i := 0 to |positions|
        invariant Valid() && State() == g && dead == old(dead) && men == old(men)
        invariant Own(pieces, nextColor) == order
        invariant forall z :: z in roster ==> z.position == old(z.position)
        invariant forall j :: 0 <= j < i && positions[j].OnBoard() ==> !Legal(g, from, positions[j])
      {
        if !positions[i].OnBoard() { continue; }
        var good := SimulationIsValidMove(p.position, positions[i]);
        if good { return true; }
      }
      forall q: Pos | q.OnBoard() && Legal(g, from, q)
        ensures false
      {
        LegalReaches(g, from, q);
      }
      return false;
    }

    lemma Standing(p: Piece)
      requires Valid() && p in pieces
      ensures Mirrored() && p in roster && p.position in men && men[p.position] == p && p.position.OnBoard()
    {
    }

    /** std::list iteration: the node after the one `it` stands on, in the list as it is now. */
    method Advance(it: Piece) returns (next: Piece?)
      requires it in pieces && NoDup(pieces)
      ensures next != null ==> next in pieces
      ensures Tail(pieces, next) == Tail(pieces, it)[1..]
    {
      var i := IndexOf(pieces, it);
      if i + 1 == |pieces| {
        next := null;
      } else {
        next := pieces[i + 1];
        assert IndexOf(pieces, pieces[i + 1]) == i + 1;
      }
    }

    /** Where an iterator on a piece of the side to move stands after the enemies have
        been rearranged. */
    lemma StillThere(pieces0: seq<Piece>, it: Piece)
      requires Valid() && NoDup(pieces0) && it in pieces0
      requires Own(pieces, it.color) == Own(pieces0, it.color)
      ensures it in pieces && NoDup(pieces)
      ensures Own(Tail(pieces, it), it.color) == Own(Tail(pieces0, it), it.color)
    {
      OwnMembers(pieces, it.color);
      OwnMembers(pieces0, it.color);
      OwnTailStable(pieces0, pieces, it, it.color);
    }

    lemma NoneTriedNoReply(tried: seq<Piece>)
      requires Valid() && tried == Own(pieces, nextColor)
      requires forall p, q: Pos :: p in tried && q.OnBoard() ==> !Legal(State(), p.position, q)
      ensures !HasReply(State())
    {
      hide Legal;
      var g := State();
      OwnMembers(pieces, nextColor);
      assert forall p :: p in men && men[p].color == nextColor ==> men[p] in tried && men[p].position == p;
      forall p, q: Pos | q.OnBoard() && Legal(g, p, q)
        ensures false
      {
        LegalReaches(g, p, q);
      }
    }

    lemma Duplicates()
      requires Valid()
      ensures NoDup(pieces)
    {
    }

    /** Walks the active list while the moves tried on the way remove enemies from it and
        append them again.  Every piece of the side to move is tried at most once, and all
        of them before the answer is no. */
    method DoesNextMoveExist() returns (r: bool)
      requires Valid()
      modifies this`men, this`pieces, this`dead, cells, roster`position
      ensures Valid() && Restored()
      ensures r <==> HasReply(State())
    {
      hide Valid, Legal, Own, NoDup, Tail;
      ghost var g, order := State(), Own(pieces, nextColor);
      ghost var tried: seq<Piece> := [];
      var it: Piece? := if |pieces| == 0 then null else pieces[0];
      TailEnds(pieces);
      while it != null
        invariant Valid() && State() == g && dead == old(dead) && men == old(men)
        invariant forall z :: z in roster ==> z.position == old(z.position)
        invariant Own(pieces, nextColor) == order
        invariant it != null ==> it in pieces
        invariant order == tried + Own(Tail(pieces, it), nextColor)
        invariant forall p, q: Pos :: p in tried && q.OnBoard() ==> !Legal(g, p.position, q)
        decreases |Own(Tail(pieces, it), nextColor)|, |Tail(pieces, it)|
      {
        Duplicates();
        OwnStep(Tail(pieces, it), nextColor);
        if it.color == nextColor {
          ghost var before := pieces;
          var found := PieceHasMove(it);
          if found { return true; }
          StillThere(before, it);
          OwnStep(Tail(pieces, it), nextColor);
          tried := tried + [it];
        }
        it := Advance(it);
      }
      TailEnds(pieces);
      assert tried + [] == tried;
      NoneTriedNoReply(tried);
      return false;
    }

    /** Looks up the piece a four-character move starts from. */
    method StringToMove(s: string) returns (r: Option<(Move, Color)>)
      requires Valid()
      ensures r == match ParseMove(s)
                   case None => None
                   case Some(m) => if m.from in men then Some((m, men[m.from].color)) else None
    {
      if |s| != 4 { return None; }
      var m := Move(Pos(Coordinate(s[0]), Coordinate(s[1])), Pos(Coordinate(s[2]), Coordinate(s[3])));
      var piece := GetPieceAt(m.from);
      if piece == null { return None; }
      return Some((m, piece.color));
    }

    method IsLastMoveCheck() returns (r: bool)
      requires Valid()
      ensures r <==> GivesCheck(State())
    {
      r := IsKingBeingChecked(nextColor);
    }

    // ------------------------------------------------------------------------
    // Accepting a move
    // ------------------------------------------------------------------------

    lemma AcceptedValid(g: Game, from: Pos, to: Pos)
      requires Consistent() && Sound(g) && Legal(g, from, to) && State() == Next(g, from, to)
      ensures Valid()
    {
      LegalKeepsSound(g, from, to);
    }

    lemma KingsAfter(from: Pos, to: Pos)
      requires Valid() && CanGo(Names(men), from, to) && men[from].color == nextColor
      ensures OneKing(Step(Names(men), from, to), Red) && OneKing(Step(Names(men), from, to), Black)
    {
      StepKeepsKings(State(), from, to, Red);
      StepKeepsKings(State(), from, to, Black);
    }

    lemma Holds()
      requires Valid()
      ensures Consistent() && Sound(State())
    {
    }

    lemma StillHolds(g: Game)
      requires Consistent() && Sound(g) && State() == g
      ensures Valid()
    {
    }

    method SwitchTurn()
      requires Consistent()
      modifies this`nextColor
      ensures Consistent() && nextColor == old(nextColor).Other()
    {
      nextColor := if nextColor == Red then Black else Red;
    }

    /** Judges a move.  `color` is the colour the move's own record of the piece carries;
        `StringToMove` reads it off the board. */
    method ValidateMove(from: Pos, to: Pos, color: Color)
      returns (accepted: bool, captured: Option<Man>, status: Status)
      requires Valid()
      requires from in men ==> men[from].color == color
      modifies this`men, this`pieces, this`dead, this`nextColor, cells, roster`position
      ensures Valid()
      ensures accepted <==> Legal(old(State()), from, to)
      ensures accepted ==> State() == Next(old(State()), from, to)
      ensures accepted ==> captured == if to in old(men) then Some(old(men)[to].Info()) else None
      ensures accepted ==> status == Verdict(State())
      ensures !accepted ==> Restored() && captured == None && status == Unknown
    {
      hide Valid, Consistent, Mirrored, CanGo, Attacked, Facing, OneKing, Sound, Own;
      accepted, captured, status := false, None, Unknown;
      ghost var g := State();
      Holds();
      TargetIsEnemy(g.men, from, to);
      if color != nextColor { return; }
      Settled(from);
      Settled(to);
      var piece := GetPieceAt(from);
      if piece == null { return; }
      var possible := IsValidMove(piece, to);
      if !possible { return; }
      KingsAfter(from, to);
      var taken, beingChecked, areKingsFacing := RecordAndTest(from, to, color);
      if beingChecked || areKingsFacing {
        UndoRecorded(from, to, taken, old(men), old(pieces), old(dead), nextColor);
        StillHolds(g);
        return;
      }
      accepted := true;
      captured := if taken != null then Some(taken.Info()) else None;
      SwitchTurn();
      AcceptedValid(g, from, to);
      var reply := DoesNextMoveExist();
      status := if !reply then (if nextColor == Black then RedWin else BlackWin) else InProgress;
    }
  }
}
