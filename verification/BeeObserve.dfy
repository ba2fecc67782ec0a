/** Watching a dance: an automaton over headings, and the decoding of what it recorded. */
module BeeObserve {
  import opened BeeDance

  const END_OF_WORD := '_'
  const X_COORD_START := 1

  // ------------------------------------------------------------------- the automaton

  /** One frame: which of the four heading windows the dancer's heading is in. */
  datatype Frame = Frame(initial: bool, left: bool, right: bool, rear: bool)

  /** The windows are disjoint. */
  predicate OneWindow(f: Frame) {
    && !(f.initial && (f.left || f.right || f.rear))
    && !(f.left && (f.right || f.rear)) && !(f.right && f.rear)
  }

  predicate Trace(t: seq<Frame>) {
    forall i :: 0 <= i < |t| ==> OneWindow(t[i])
  }

  /** What the watcher keeps from frame to frame; direction is the recorded letter while one is set. */
  class Observer {
    var direction: char
    var directionSet: bool
    var danceMoves: string
    var sawDance: bool

    constructor ()
      ensures !directionSet && danceMoves == [] && !sawDance
    {
      direction, directionSet, danceMoves, sawDance := '\0', false, [], false;
    }

    ghost function Pending(): string
      reads this
    {
      if directionSet then [direction] else []
    }

    /** observeDanceMoves, once the headings have been set up. */
    method Observe(f: Frame)
      requires OneWindow(f)
      modifies this
      ensures danceMoves == old(danceMoves) + if f.initial then old(Pending()) else []
      ensures Pending() == if f.initial then [] else Turned(old(Pending()), f)
      ensures sawDance == (old(sawDance) || (f.initial && old(directionSet)))
    {
      if f.initial {
        if directionSet {
          sawDance := true;
          danceMoves := danceMoves + [direction];
          directionSet := false;
          direction := '\0';
        }
      }
      if f.left && !directionSet {
        direction := LEFT;
        directionSet := true;
      }
      if f.right && !directionSet {
        direction := RIGHT;
        directionSet := true;
      }
      if f.rear {
        direction := END_OF_WORD;
        directionSet := true;
      }
    }

    /** What is kept agrees with the declarative reading of the frames seen. */
    ghost predicate Agrees(seen: seq<Frame>)
      reads this
    {
      && danceMoves == Recorded(seen) && Pending() == Symbol(Unfinished(seen))
      && sawDance == (danceMoves != [])
    }

    /** One more frame. */
    method ObserveNext(f: Frame, ghost seen: seq<Frame>)
      requires OneWindow(f) && Agrees(seen)
      modifies this
      ensures Agrees(seen + [f])
    {
      hide Recorded;
      hide Symbol;
      hide Unfinished;
      hide Turned;
      RecordedSnoc(seen, f);
      Observe(f);
    }

    /** A whole trace, frame by frame, from a watcher that has just been set up. */
    method Watch(t: seq<Frame>)
      requires Trace(t) && !directionSet && danceMoves == [] && !sawDance
      modifies this
      ensures danceMoves == Recorded(t)
      ensures sawDance == (Recorded(t) != [])
    {
      ghost var seen := [];
      assert Agrees(seen);
      hide Recorded;
      hide Symbol;
      hide Unfinished;
      for i := 0 to |t|
        invariant seen == t[..i] && Agrees(seen)
      {
        hide Agrees;
        ObserveNext(t[i], seen);
        seen := seen + [t[i]];
      }
      assert seen == t;
    }
  }

  /** The letter at hand after a frame away from the initial heading. */
  function Turned(pending: string, f: Frame): string {
    if f.rear then [END_OF_WORD]
    else if pending != [] then pending
    else if f.left then [LEFT]
    else if f.right then [RIGHT]
    else []
  }

  // --------------------------------------------------------- what a trace should mean

  /** The stretches away from the initial heading that have come back to it. */
  function Excursions(t: seq<Frame>): seq<seq<Frame>> {
    var k := FirstInitial(t);
    if k == |t| then [] else [t[..k]] + Excursions(t[k + 1..])
  }

  function FirstInitial(t: seq<Frame>): (k: nat)
    ensures k <= |t|
    ensures forall i :: 0 <= i < k ==> !t[i].initial
    ensures k < |t| ==> t[k].initial
  {
    if t == [] || t[0].initial then 0 else 1 + FirstInitial(t[1..])
  }

  /** The stretch that has not come back yet. */
  function Unfinished(t: seq<Frame>): seq<Frame> {
    var k := FirstInitial(t);
    if k == |t| then t else Unfinished(t[k + 1..])
  }

  predicate TouchesRear(x: seq<Frame>) {
    exists i :: 0 <= i < |x| && x[i].rear
  }

  /** The first side window touched. */
  function FirstSide(x: seq<Frame>): string {
    if x == [] then []
    else if x[0].left then [LEFT]
    else if x[0].right then [RIGHT]
    else FirstSide(x[1..])
  }

  /** What one excursion says: a pause if it touched the rear at any time, else its first side. */
  function Symbol(x: seq<Frame>): string {
    if TouchesRear(x) then [END_OF_WORD] else FirstSide(x)
  }

  /** The letters of a trace: one for each completed excursion that touched a window. */
  function Recorded(t: seq<Frame>): string {
    Spoken(Excursions(t))
  }

  function Spoken(xs: seq<seq<Frame>>): string {
    if xs == [] then [] else Symbol(xs[0]) + Spoken(xs[1..])
  }

  lemma {:induction false} ExcursionsSnoc(t: seq<Frame>, f: Frame)
    ensures Excursions(t + [f]) == if f.initial then Excursions(t) + [Unfinished(t)] else Excursions(t)
    ensures Unfinished(t + [f]) == if f.initial then [] else Unfinished(t) + [f]
    decreases |t|
  {
    hide FirstInitial;
    hide Excursions;
    hide Unfinished;
    var k := FirstInitial(t);
    var u := t + [f];
    FirstInitialSnoc(t, f);
    if k < |t| {
      ExcursionsSnoc(t[k + 1..], f);
      assert u[k + 1..] == t[k + 1..] + [f] && u[..k] == t[..k];
      OnFromInitial(t);
      OnFromInitial(u);
      var r := Excursions(t[k + 1..]);
      assert [t[..k]] + (r + [Unfinished(t[k + 1..])]) == [t[..k]] + r + [Unfinished(t[k + 1..])];
    } else if f.initial {
      assert u[..k] == t && u[k + 1..] == [];
      OnFromInitial(u);
      NoReturn(t);
      NoReturn([]);
    } else {
      NoReturn(t);
      NoReturn(u);
    }
  }

  /** Without a return to the initial heading nothing is complete. */
  lemma NoReturn(t: seq<Frame>)
    requires FirstInitial(t) == |t|
    ensures Excursions(t) == [] && Unfinished(t) == t
  {
  }

  /** What comes before the first return to the initial heading, and what comes after it. */
  lemma {:induction false} OnFromInitial(t: seq<Frame>)
    requires FirstInitial(t) < |t|
    ensures var k := FirstInitial(t);
            Excursions(t) == [t[..k]] + Excursions(t[k + 1..]) && Unfinished(t) == Unfinished(t[k + 1..])
  {
    hide FirstInitial;
  }

  lemma FirstInitialSnoc(t: seq<Frame>, f: Frame)
    ensures FirstInitial(t + [f]) == if FirstInitial(t) < |t| || f.initial then FirstInitial(t) else |t| + 1
  {
    var k := FirstInitial(t);
    FirstInitialIs(t + [f], if k < |t| || f.initial then k else |t| + 1);
  }

  lemma FirstInitialIs(t: seq<Frame>, k: nat)
    requires k <= |t| && (forall i :: 0 <= i < k ==> !t[i].initial) && (k < |t| ==> t[k].initial)
    ensures FirstInitial(t) == k
  {
  }

  lemma {:induction false} SpokenConcat(xs: seq<seq<Frame>>, ys: seq<seq<Frame>>)
    ensures Spoken(xs + ys) == Spoken(xs) + Spoken(ys)
  {
    if xs == [] {
      assert xs + ys == ys;
    } else {
      assert (xs + ys)[1..] == xs[1..] + ys;
      SpokenConcat(xs[1..], ys);
    }
  }

  lemma {:induction false} FirstSideSnoc(x: seq<Frame>, f: Frame)
    ensures FirstSide(x + [f]) == if FirstSide(x) != [] then FirstSide(x) else FirstSide([f])
  {
    if x == [] {
      assert x + [f] == [f];
    } else {
      assert (x + [f])[1..] == x[1..] + [f];
      FirstSideSnoc(x[1..], f);
    }
  }

  lemma SymbolSnoc(x: seq<Frame>, f: Frame)
    requires OneWindow(f) && !f.initial
    ensures Symbol(x + [f]) == Turned(Symbol(x), f)
  {
    var y := x + [f];
    FirstSideSnoc(x, f);
    assert [f][1..] == [];
    if TouchesRear(x) {
      var i :| 0 <= i < |x| && x[i].rear;
      assert y[i].rear;
    }
    if f.rear {
      assert y[|x|].rear;
    }
    if TouchesRear(y) {
      var i :| 0 <= i < |y| && y[i].rear;
      assert i < |x| ==> x[i].rear;
    }
  }

  /** One more frame adds what the automaton adds. */
  lemma RecordedSnoc(t: seq<Frame>, f: Frame)
    requires OneWindow(f)
    ensures Recorded(t + [f]) == Recorded(t) + if f.initial then Symbol(Unfinished(t)) else []
    ensures Symbol(Unfinished(t + [f])) == if f.initial then [] else Turned(Symbol(Unfinished(t)), f)
  {
    ExcursionsSnoc(t, f);
    if f.initial {
      SpokenConcat(Excursions(t), [Unfinished(t)]);
      assert Spoken([Unfinished(t)]) == Symbol(Unfinished(t)) + Spoken([]);
    } else {
      SymbolSnoc(Unfinished(t), f);
    }
  }

  // --------------------------------------------------------------------- the decoder

  /** The node at which a walk from above the two roots ends. */
  function NodeAt(moves: string): int {
    if moves == [] then -1
    else
      var above := NodeAt(moves[..|moves| - 1]);
      if moves[|moves| - 1] == LEFT then (above + 1) * 2 else (above + 1) * 2 + 1
  }

  /** Walking down the moves to a node ends at that node, for every node of the infinite tree. */
  lemma {:induction false} WalkEndsAtNode(c: nat)
    ensures NodeAt(MovesTo(c)) == c
  {
    MovesToStep(c);
    if Parent(c) >= 0 {
      WalkEndsAtNode(Parent(c));
      assert MovesTo(c)[..|MovesTo(c)| - 1] == MovesTo(Parent(c));
    } else {
      assert MovesTo(c)[..0] == [];
    }
  }

  /** The moves that convertToNumber looks at: no more than three. */
  function Looked(moves: string): string {
    if |moves| <= 3 then moves else moves[..3]
  }

  /** convertToNumber; the digit characters are indexed by node, so the node is the digit. */
  method ConvertToNumber(moves: string) returns (node: int)
    ensures node == NodeAt(Looked(moves))
  {
    var i := 0;
    node := -1;
    while i < 3 && i < |moves|
      invariant 0 <= i <= |Looked(moves)| && node == NodeAt(moves[..i])
    {
      assert moves[..i + 1][..i] == moves[..i];
      if moves[i] == LEFT {
        node := (node + 1) * 2;
      } else {
        node := (node + 1) * 2 + 1;
      }
      i := i + 1;
    }
    assert moves[..i] == Looked(moves);
  }

  datatype Reading = Lost | Read(digits: seq<nat>, next: nat)

  /**
   * Reads one coordinate from position i on, with the moves of the digit at hand and the digits so far.
   * It is lost when the string ends first or a walk leaves the ten digits.
   */
  function Interpret(dance: string, i: nat, moves: string, digits: seq<nat>): (r: Reading)
    decreases |dance| - i
  {
    if i + 1 >= |dance| then Lost
    else
      var more := moves + [dance[i]];
      if dance[i + 1] != END_OF_WORD then Interpret(dance, i + 1, more, digits)
      else if !(0 <= NodeAt(Looked(more)) <= 9) || i + 2 >= |dance| then Lost
      else if dance[i + 2] == END_OF_WORD then Read(digits + [NodeAt(Looked(more))], i + 3)
      else Interpret(dance, i + 2, [], digits + [NodeAt(Looked(more))])
  }

  /** interpretCoord; index is the static dance_index, handed on from call to call. */
  method InterpretCoord(dance: string, index: nat) returns (coord: nat, next: nat)
    requires Interpret(dance, index, [], []).Read?
    ensures var r := Interpret(dance, index, [], []); coord == Value(r.digits) && next == r.next
  {
    var moves, number: seq<nat> := [], [];
    var completed := false;
    next := index;
    ghost var result := Interpret(dance, index, [], []);
    while !completed
      invariant completed ==> result == Read(number, next)
      invariant !completed ==> Interpret(dance, next, moves, number) == result
      decreases |dance| - next, !completed
    {
      moves := moves + [dance[next]];
      next := next + 1;
      if dance[next] == END_OF_WORD {
        var node := ConvertToNumber(moves);
        number := number + [node];
        moves := [];
        next := next + 1;
        if dance[next] == END_OF_WORD {
          completed := true;
          next := next + 1;
        }
      }
    }
    coord := Value(number);
  }
}
