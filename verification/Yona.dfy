/**
The Yona mixing function on 32-bit words. The mixing rounds update the state array in
place; each is proved equal to a function on sequences, and those functions are bijections.
*/
module Yona {
  import opened Words

  const Y_KEY: Word := 0x594F4E41
  const CHUNK_START: Word := 1
  const CHUNK_END: Word := 2
  const ROOT: Word := 8

  const IV: seq<Word> :=
    [0x6A09E667, 0xBB67AE85, 0x3C6EF372, 0xA54FF53A, 0x510E527F, 0x9B05688C, 0x1F83D9AB, 0x5BE0CD19]

  type State = s: seq<Word> | |s| == 16 witness [0, 0, 0, 0, 0, 0, 0, 0, 0, 0, 0, 0, 0, 0, 0, 0]

  // ----- the quarter round on four words

  datatype Quad = Quad(a: Word, b: Word, c: Word, d: Word)

  /** Half of the G step: r and t are its two rotations. */
  function Half(q: Quad, x: Word, r: nat, t: nat): Quad
    requires r <= 32 && t <= 32
  {
    var a := Add(Add(q.a, q.b), Xor(x, Y_KEY));
    var d := Right(Xor(q.d, a), r);
    var c := Add(q.c, d);
    var b := Right(Xor(q.b, c), t);
    Quad(a, b, c, d)
  }

  function UndoHalf(q: Quad, x: Word, r: nat, t: nat): Quad
    requires r <= 32 && t <= 32
  {
    var b := Xor(Left(q.b, t), q.c);
    var c := Sub(q.c, q.d);
    var d := Xor(Left(q.d, r), q.a);
    Quad(Sub(Sub(q.a, Xor(x, Y_KEY)), b), b, c, d)
  }

  function G(q: Quad, x: Word, y: Word): Quad {
    Half(Half(q, x, 17, 13), y, 9, 5)
  }

  function UndoG(q: Quad, x: Word, y: Word): Quad {
    UndoHalf(UndoHalf(q, y, 9, 5), x, 17, 13)
  }

  lemma HalfUndone(q: Quad, x: Word, r: nat, t: nat)
    requires r <= 32 && t <= 32
    ensures UndoHalf(Half(q, x, r, t), x, r, t) == q && Half(UndoHalf(q, x, r, t), x, r, t) == q
  {
    hide Add, Sub, Xor, Right, Left;
    var k := Xor(x, Y_KEY);
    var h, u := Half(q, x, r, t), UndoHalf(q, x, r, t);
    Turns(Xor(q.d, h.a), r);
    Turns(Xor(q.b, h.c), t);
    Turns(q.d, r);
    Turns(q.b, t);
    XorTwice(q.d, h.a);
    XorTwice(q.b, h.c);
    AddSub(Add(q.a, q.b), k);
    AddSub(q.a, q.b);
    AddSub(q.c, h.d);
    XorTwice(Left(q.d, r), q.a);
    XorTwice(Left(q.b, t), q.c);
    AddSub(q.c, q.d);
    AddSub(Sub(q.a, k), u.b);
    AddSub(q.a, k);
  }

  lemma GUndone(q: Quad, x: Word, y: Word)
    ensures UndoG(G(q, x, y), x, y) == q && G(UndoG(q, x, y), x, y) == q
  {
    hide Half, UndoHalf;
    HalfUndone(q, x, 17, 13);
    HalfUndone(Half(q, x, 17, 13), y, 9, 5);
    HalfUndone(q, y, 9, 5);
    HalfUndone(UndoHalf(q, y, 9, 5), x, 17, 13);
  }

  // ----- on four words of a state

  /** Four different positions of the state. */
  datatype Lane = Lane(a: nat, b: nat, c: nat, d: nat)

  predicate LaneOk(l: Lane) {
    && l.a < 16 && l.b < 16 && l.c < 16 && l.d < 16
    && l.a != l.b && l.a != l.c && l.a != l.d && l.b != l.c && l.b != l.d && l.c != l.d
  }

  function Pick(s: State, l: Lane): Quad
    requires LaneOk(l)
  {
    Quad(s[l.a], s[l.b], s[l.c], s[l.d])
  }

  function Put(s: State, l: Lane, q: Quad): State
    requires LaneOk(l)
  {
    s[l.a := q.a][l.b := q.b][l.c := q.c][l.d := q.d]
  }

  lemma PutPick(s: State, l: Lane, q: Quad, r: Quad)
    requires LaneOk(l)
    ensures Pick(Put(s, l, q), l) == q
    ensures Put(Put(s, l, q), l, r) == Put(s, l, r)
    ensures Put(s, l, Pick(s, l)) == s
  {
  }

  function GAt(s: State, l: Lane, x: Word, y: Word): State
    requires LaneOk(l)
  {
    Put(s, l, G(Pick(s, l), x, y))
  }

  function UndoGAt(s: State, l: Lane, x: Word, y: Word): State
    requires LaneOk(l)
  {
    Put(s, l, UndoG(Pick(s, l), x, y))
  }

  lemma GAtUndone(s: State, l: Lane, x: Word, y: Word)
    requires LaneOk(l)
    ensures UndoGAt(GAt(s, l, x, y), l, x, y) == s
    ensures GAt(UndoGAt(s, l, x, y), l, x, y) == s
  {
    hide G, UndoG, Pick, Put;
    GUndone(Pick(s, l), x, y);
    PutPick(s, l, G(Pick(s, l), x, y), Pick(s, l));
    PutPick(s, l, UndoG(Pick(s, l), x, y), Pick(s, l));
  }

  // ----- rounds

  /** The eight lanes of a round: four columns, then four diagonals. */
  function LaneOf(k: nat): (l: Lane)
    ensures LaneOk(l)
  {
    match k
    case 0 => Lane(0, 4, 8, 12)
    case 1 => Lane(1, 5, 9, 13)
    case 2 => Lane(2, 6, 10, 14)
    case 3 => Lane(3, 7, 11, 15)
    case 4 => Lane(0, 5, 10, 15)
    case 5 => Lane(1, 6, 11, 12)
    case 6 => Lane(2, 7, 8, 13)
    case _ => Lane(3, 4, 9, 14)
  }

  /** The first k steps of a round. */
  function Steps(s: State, m: State, k: nat): State
    requires k <= 8
  {
    if k == 0 then s else GAt(Steps(s, m, k - 1), LaneOf(k - 1), m[2 * k - 2], m[2 * k - 1])
  }

  function UndoSteps(s: State, m: State, k: nat): State
    requires k <= 8
    decreases k
  {
    if k == 0 then s else UndoSteps(UndoGAt(s, LaneOf(k - 1), m[2 * k - 2], m[2 * k - 1]), m, k - 1)
  }

  lemma {:induction false} StepsUndone(s: State, m: State, k: nat)
    requires k <= 8
    ensures UndoSteps(Steps(s, m, k), m, k) == s && Steps(UndoSteps(s, m, k), m, k) == s
    decreases k
  {
    hide GAt, UndoGAt, LaneOf;
    if k > 0 {
      var l, x, y := LaneOf(k - 1), m[2 * k - 2], m[2 * k - 1];
      GAtUndone(Steps(s, m, k - 1), l, x, y);
      StepsUndone(s, m, k - 1);
      StepsUndone(UndoGAt(s, l, x, y), m, k - 1);
      GAtUndone(s, l, x, y);
    }
  }

  function Permute(m: State): State {
    [m[2], m[6], m[3], m[10], m[7], m[0], m[4], m[13], m[1], m[11], m[12], m[5], m[9], m[14], m[15], m[8]]
  }

  /** The message words as used in round k. */
  function Schedule(m: State, k: nat): State {
    if k == 0 then m else Permute(Schedule(m, k - 1))
  }

  /** k rounds, the message permuted between them. */
  function Mix(s: State, m: State, k: nat): State {
    if k == 0 then s else Steps(Mix(s, m, k - 1), Schedule(m, k - 1), 8)
  }

  function Unmix(s: State, m: State, k: nat): State
    decreases k
  {
    if k == 0 then s else Unmix(UndoSteps(s, Schedule(m, k - 1), 8), m, k - 1)
  }

  /** Any number of rounds is undone by its inverse, for every message block. */
  lemma {:induction false} MixUndone(s: State, m: State, k: nat)
    ensures Unmix(Mix(s, m, k), m, k) == s && Mix(Unmix(s, m, k), m, k) == s
    decreases k
  {
    hide Steps, UndoSteps, Schedule;
    if k > 0 {
      var w := Schedule(m, k - 1);
      StepsUndone(Mix(s, m, k - 1), w, 8);
      MixUndone(s, m, k - 1);
      MixUndone(UndoSteps(s, w, 8), m, k - 1);
      StepsUndone(s, w, 8);
    }
  }

  const ROUNDS: nat := 7

  /** Seven rounds are a bijection on the state: no two states collide, and every state is reached. */
  lemma SevenRoundsBijective(m: State, s: State, t: State)
    ensures Mix(s, m, ROUNDS) == Mix(t, m, ROUNDS) ==> s == t
    ensures exists u: State :: Mix(u, m, ROUNDS) == t
  {
    hide Mix, Unmix;
    MixUndone(s, m, ROUNDS);
    MixUndone(t, m, ROUNDS);
    assert Mix(Unmix(t, m, ROUNDS), m, ROUNDS) == t;
  }

  function Unpermute(m: State): State {
    [m[5], m[8], m[0], m[2], m[6], m[11], m[1], m[4], m[15], m[12], m[3], m[9], m[10], m[7], m[13], m[14]]
  }

  /** The message permutation moves every word exactly once. */
  lemma PermuteBijective(m: State)
    ensures Unpermute(Permute(m)) == m && Permute(Unpermute(m)) == m
  {
  }
}
