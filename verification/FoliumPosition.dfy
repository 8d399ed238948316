/** Positions of the Folium engine as values: where every piece stands and what stands on
    every square, with the packing of moves and traces and the three running digests. */
module FoliumPosition {
  import opened FoliumXor

  const EMPTY := 32          // what an empty square holds
  const INVALID_INDEX := 33  // what the square off the board holds
  const NOWHERE := 90        // where a captured piece stands

  datatype Position = Position(squares: seq<nat>, pieces: seq<nat>, player: nat)

  function ColorOf(piece: nat): nat {
    if piece < 16 then 0 else if piece < 32 then 1 else if piece == EMPTY then 2 else 3
  }

  /** Squares and pieces say the same, square by square and piece by piece. */
  predicate Consistent(p: Position) {
    && |p.squares| == 91 && |p.pieces| == 32 && p.player < 2
    && p.squares[NOWHERE] == INVALID_INDEX
    && (forall s {:trigger p.squares[s]} :: 0 <= s < 90 ==> p.squares[s] <= EMPTY)
    && (forall s {:trigger p.squares[s]} :: 0 <= s < 90 && p.squares[s] < 32 ==> p.pieces[p.squares[s]] == s)
    && (forall i {:trigger p.pieces[i]} :: 0 <= i < 32 ==> p.pieces[i] <= NOWHERE)
    && (forall i {:trigger p.pieces[i]} :: 0 <= i < 32 && p.pieces[i] < NOWHERE ==> p.squares[p.pieces[i]] == i)
  }

  /** A man goes to a square that his own side does not hold. */
  predicate Movable(p: Position, src: nat, dst: nat)
    requires Consistent(p)
  {
    && src < 90 && dst < 90
    && p.squares[src] < 32 && ColorOf(p.squares[dst]) != ColorOf(p.squares[src])
  }

  /** And he is one of the player's own. */
  predicate Playable(p: Position, src: nat, dst: nat)
    requires Consistent(p)
  {
    Movable(p, src, dst) && ColorOf(p.squares[src]) == p.player
  }

  function Placed(p: Position, src: nat, dst: nat): (r: Position)
    requires Consistent(p) && Movable(p, src, dst)
    ensures Consistent(r) && r.player == p.player
  {
    var piece, captured := p.squares[src], p.squares[dst];
    var pieces := p.pieces[piece := dst];
    Position(p.squares[src := EMPTY][dst := piece],
             if captured < 32 then pieces[captured := NOWHERE] else pieces,
             p.player)
  }

  function Flipped(p: Position): Position
    requires p.player < 2
  {
    p.(player := 1 - p.player)
  }

  function Moved(p: Position, src: nat, dst: nat): (r: Position)
    requires Consistent(p) && Movable(p, src, dst)
    ensures Consistent(r)
  {
    Flipped(Placed(p, src, dst))
  }

  predicate Unmovable(p: Position, src: nat, dst: nat, captured: nat)
    requires Consistent(p)
  {
    && src < 90 && dst < 90 && src != dst && p.squares[src] == EMPTY && p.squares[dst] < 32
    && captured <= EMPTY && (captured < 32 ==> p.pieces[captured] == NOWHERE)
  }

  function Unmoved(p: Position, src: nat, dst: nat, captured: nat): Position
    requires Consistent(p) && Unmovable(p, src, dst, captured)
  {
    var piece := p.squares[dst];
    var pieces := p.pieces[piece := src];
    Position(p.squares[src := piece][dst := captured],
             if captured < 32 then pieces[captured := dst] else pieces,
             1 - p.player)
  }

  lemma FlippedUnmoved(p: Position, src: nat, dst: nat, captured: nat)
    requires Consistent(p) && Unmovable(p, src, dst, captured) && Consistent(Unmoved(p, src, dst, captured))
    ensures var q := Flipped(p);
            && Consistent(q) && Unmovable(q, src, dst, captured) && Flipped(q) == p
            && Unmoved(q, src, dst, captured) == Flipped(Unmoved(p, src, dst, captured))
            && Consistent(Unmoved(q, src, dst, captured))
            && Flipped(Unmoved(q, src, dst, captured)) == Unmoved(p, src, dst, captured)
  {
  }

  /** Taking a move back restores the position it was made in. */
  lemma UnmoveIsInverse(p: Position, src: nat, dst: nat)
    requires Consistent(p) && Movable(p, src, dst)
    ensures var r, captured := Moved(p, src, dst), p.squares[dst];
            && Unmovable(r, src, dst, captured) && Unmoved(r, src, dst, captured) == p
            && Flipped(r) == Placed(p, src, dst) && Unmovable(Placed(p, src, dst), src, dst, captured)
  {
    var r, captured := Moved(p, src, dst), p.squares[dst];
    var u := Unmoved(r, src, dst, captured);
    assert u.squares == p.squares;
    assert u.pieces == p.pieces;
  }

  // --------------------------------------------------------------------------
  // Packed moves and traces: bit fields of an unsigned 32-bit word, joined by `|`.
  // The fields do not overlap, so `|` is written as a sum.
  // --------------------------------------------------------------------------

  function CreateMove(src: nat, dst: nat): nat {
    src + 0x80 * dst
  }

  function Src(move: nat): nat {
    move % 0x80
  }

  function Dst(move: nat): nat {
    move / 0x80 % 0x80
  }

  function CreateTrace(flag: nat, captured: nat, move: nat): nat {
    0x10_0000 * flag + 0x4000 * captured + move % 0x4000
  }

  function NullTrace(nullPly: nat): nat {
    0x10_0000 * nullPly
  }

  function TraceFlag(trace: nat): nat {
    trace / 0x10_0000
  }

  function TraceMove(trace: nat): nat {
    trace % 0x4000
  }

  function TraceCaptured(trace: nat): nat {
    trace / 0x4000 % 0x40
  }

  lemma MoveRoundTrip(src: nat, dst: nat)
    requires src < 0x80 && dst < 0x80
    ensures Src(CreateMove(src, dst)) == src && Dst(CreateMove(src, dst)) == dst
  {
  }

  /** A trace gives back its flag, the captured piece and both squares of its move. */
  lemma TraceRoundTrip(flag: nat, captured: nat, move: nat)
    requires captured < 0x40
    ensures var t := CreateTrace(flag, captured, move);
            TraceFlag(t) == flag && TraceCaptured(t) == captured && Src(t) == Src(move) && Dst(t) == Dst(move)
  {
    var t, low := CreateTrace(flag, captured, move), move % 0x4000;
    assert move == 0x4000 * (move / 0x4000) + low;
    assert t / 0x4000 == 0x40 * flag + captured;
    assert t % 0x4000 == low;
    LowBits(t);
    LowBits(move);
  }

  lemma LowBits(w: nat)
    ensures Src(w) == w % 0x4000 % 0x80 && Dst(w) == w % 0x4000 / 0x80
  {
    var h, l := w / 0x4000, w % 0x4000;
    assert w == 0x80 * (0x80 * h + l / 0x80) + l % 0x80;
    assert w / 0x80 == 0x80 * h + l / 0x80;
  }

  /** The bit operations themselves, on words of 32 bits: joining the fields of a move is
      adding them, and each is read back by shifting and masking. */
  lemma MoveBits(src: bv32, dst: bv32)
    requires src < 0x80 && dst < 0x80
    ensures src | (dst << 7) == src + (dst << 7)
    ensures (src | (dst << 7)) & 0x7f == src && ((src | (dst << 7)) >> 7) & 0x7f == dst
  {
  }

  /** The same for the fields of a trace. */
  lemma TraceBits(flag: bv32, captured: bv32, move: bv32)
    requires flag < 0x1000 && captured < 0x40 && move < 0x4000
    ensures (flag << 20) | (captured << 14) | move == (flag << 20) + (captured << 14) + move
    ensures ((flag << 20) | (captured << 14) | move) >> 20 == flag
    ensures (((flag << 20) | (captured << 14) | move) >> 14) & 0x3f == captured
    ensures ((flag << 20) | (captured << 14) | move) & 0x3fff == move
  {
  }

  // --------------------------------------------------------------------------
  // Digests
  // --------------------------------------------------------------------------

  /** The engine's tables, and what xq.cpp and the move generators compute from a position. */
  datatype Rules = Rules(
    key: (nat, nat) -> bv32,
    lock: (nat, nat) -> bv64,
    value: (nat, nat) -> int,
    inCheck: (Position, nat) -> bool,
    moves: Position -> seq<nat>,
    captures: Position -> seq<nat>,
    rootMoves: Position -> seq<nat>,
    legal: (Position, nat) -> bool,
    goodCapture: (Position, nat) -> bool,
    ninePerTen: int -> int)

  datatype Digest = Digest(key: bv32, lock: bv64, value: int)

  const NOTHING := Digest(0, 0, 0)

  /** A piece comes to a square. */
  function Put(d: Digest, rules: Rules, piece: nat, square: nat): Digest {
    Digest(Xor32(d.key, rules.key(piece, square)), Xor64(d.lock, rules.lock(piece, square)), d.value + rules.value(piece, square))
  }

  /** A piece leaves a square. */
  function Take(d: Digest, rules: Rules, piece: nat, square: nat): Digest {
    Digest(Xor32(d.key, rules.key(piece, square)), Xor64(d.lock, rules.lock(piece, square)), d.value - rules.value(piece, square))
  }

  /** The digest of the first n pieces, computed afresh. */
  function DigestUpTo(rules: Rules, pieces: seq<nat>, n: nat): Digest
    requires n <= |pieces|
  {
    if n == 0 then NOTHING
    else
      var d := DigestUpTo(rules, pieces, n - 1);
      if pieces[n - 1] == NOWHERE then d else Put(d, rules, n - 1, pieces[n - 1])
  }

  function DigestOf(rules: Rules, p: Position): Digest {
    DigestUpTo(rules, p.pieces, |p.pieces|)
  }

  lemma TakeUndoesPut(d: Digest, rules: Rules, i: nat, s: nat, j: nat, t: nat)
    ensures Take(Put(d, rules, i, s), rules, i, s) == d
    ensures Take(Put(d, rules, j, t), rules, i, s) == Put(Take(d, rules, i, s), rules, j, t)
    ensures Put(Put(d, rules, j, t), rules, i, s) == Put(Put(d, rules, i, s), rules, j, t)
  {
    hide Xor32, Xor64;
    Xor32Laws(d.key, rules.key(i, s), rules.key(j, t));
    Xor32Laws(d.key, rules.key(j, t), rules.key(i, s));
    Xor64Laws(d.lock, rules.lock(i, s), rules.lock(j, t));
    Xor64Laws(d.lock, rules.lock(j, t), rules.lock(i, s));
  }

  lemma {:induction false} DigestWithout(rules: Rules, pieces: seq<nat>, i: nat, n: nat)
    requires i < n <= |pieces| && pieces[i] != NOWHERE
    ensures DigestUpTo(rules, pieces[i := NOWHERE], n) == Take(DigestUpTo(rules, pieces, n), rules, i, pieces[i])
  {
    hide Put, Take;
    var d := DigestUpTo(rules, pieces, n - 1);
    if i == n - 1 {
      DigestSame(rules, pieces, pieces[i := NOWHERE], i);
      TakeUndoesPut(d, rules, i, pieces[i], 0, 0);
    } else {
      DigestWithout(rules, pieces, i, n - 1);
      TakeUndoesPut(d, rules, i, pieces[i], n - 1, pieces[n - 1]);
    }
  }

  lemma {:induction false} DigestWith(rules: Rules, pieces: seq<nat>, i: nat, s: nat, n: nat)
    requires i < n <= |pieces| && pieces[i] == NOWHERE && s != NOWHERE
    ensures DigestUpTo(rules, pieces[i := s], n) == Put(DigestUpTo(rules, pieces, n), rules, i, s)
  {
    hide Put, Take;
    var d := DigestUpTo(rules, pieces, n - 1);
    if i == n - 1 {
      DigestSame(rules, pieces, pieces[i := s], i);
    } else {
      DigestWith(rules, pieces, i, s, n - 1);
      TakeUndoesPut(d, rules, i, s, n - 1, pieces[n - 1]);
    }
  }

  lemma {:induction false} DigestSame(rules: Rules, a: seq<nat>, b: seq<nat>, n: nat)
    requires n <= |a| && n <= |b| && forall k :: 0 <= k < n ==> a[k] == b[k]
    ensures DigestUpTo(rules, a, n) == DigestUpTo(rules, b, n)
  {
    if n > 0 {
      DigestSame(rules, a, b, n - 1);
    }
  }

  /** What a move does to the digest, captured piece and all. */
  lemma DigestOfMove(rules: Rules, p: Position, src: nat, dst: nat)
    requires Consistent(p) && Movable(p, src, dst)
    ensures var piece, captured := p.squares[src], p.squares[dst];
            var d := Put(Take(DigestOf(rules, p), rules, piece, src), rules, piece, dst);
            DigestOf(rules, Moved(p, src, dst)) == if captured == EMPTY then d else Take(d, rules, captured, dst)
  {
    hide Put, Take;
    var piece, captured := p.squares[src], p.squares[dst];
    var gone := p.pieces[piece := NOWHERE];
    DigestWithout(rules, p.pieces, piece, 32);
    DigestWith(rules, gone, piece, dst, 32);
    assert gone[piece := dst] == p.pieces[piece := dst];
    if captured != EMPTY {
      DigestWithout(rules, p.pieces[piece := dst], captured, 32);
    }
  }
}
