/** From the coordinates of one bee to those of another: what is danced is what is read. */
module DanceProtocol {
  import opened BeeDance
  import opened BeeObserve

  /** How a danced letter is written down by the watcher: a pause becomes the end of a word. */
  function SeenAs(c: char): char {
    if c == PAUSE then END_OF_WORD else c
  }

  function Seen(s: string): string {
    seq(|s|, i requires 0 <= i < |s| => SeenAs(s[i]))
  }

  /** dance() for a food source: the message type, then x, then y. */
  function Message(x: nat, y: nat): string {
    [LEFT] + Dance(x) + Dance(y)
  }

  /** From position i on, dance shows the letters of s. */
  predicate Shows(dance: string, i: nat, s: string) {
    i + |s| <= |dance| && forall k :: 0 <= k < |s| ==> dance[i + k] == SeenAs(s[k])
  }

  lemma MovesAreSides(c: nat)
    ensures forall i :: 0 <= i < |MovesTo(c)| ==> MovesTo(c)[i] == LEFT || MovesTo(c)[i] == RIGHT
    ensures |MovesTo(c)| >= 1
  {
  }

  /** Moves are collected until a pause follows. */
  lemma {:induction false} ReadMoves(dance: string, i: nat, d: nat, k: nat, digits: seq<nat>)
    requires Shows(dance, i, MovesTo(d)) && k < |MovesTo(d)| && i + |MovesTo(d)| < |dance|
    ensures Interpret(dance, i, [], digits) == Interpret(dance, i + k, MovesTo(d)[..k], digits)
  {
    MovesAreSides(d);
    hide MovesTo;
    if k > 0 {
      ReadMoves(dance, i, d, k - 1, digits);
      assert MovesTo(d)[..k] == MovesTo(d)[..k - 1] + [MovesTo(d)[k - 1]];
      assert dance[i + (k - 1)] == SeenAs(MovesTo(d)[k - 1]);
      assert dance[i + k] == SeenAs(MovesTo(d)[k]);
    }
  }

  /** One digit with its pause is read as that digit. */
  lemma ReadDigit(dance: string, i: nat, d: nat, digits: seq<nat>)
    requires d <= 9 && Shows(dance, i, MovesTo(d) + [PAUSE]) && i + |MovesTo(d)| + 1 < |dance|
    ensures var j := i + |MovesTo(d)| + 1;
            Interpret(dance, i, [], digits) ==
              if dance[j] == END_OF_WORD then Read(digits + [d], j + 1) else Interpret(dance, j, [], digits + [d])
  {
    hide Interpret;
    hide MovesTo;
    hide NodeAt;
    hide Shows;
    DigitIsNear(d);
    WalkEndsAtNode(d);
    DigitShown(dance, i, d);
    var k := |MovesTo(d)| - 1;
    ReadMoves(dance, i, d, k, digits);
    ReadPause(dance, i + k, MovesTo(d)[..k], d, digits);
  }

  /** Where a digit is shown, its moves stand as they are, and the end of a word follows. */
  lemma DigitShown(dance: string, i: nat, d: nat)
    requires Shows(dance, i, MovesTo(d) + [PAUSE])
    ensures var m, k := MovesTo(d), |MovesTo(d)| - 1;
            && k >= 0 && Shows(dance, i, m) && i + k + 1 < |dance|
            && m[..k] + [dance[i + k]] == m && dance[i + k + 1] == END_OF_WORD && dance[i] != END_OF_WORD
  {
    MovesAreSides(d);
    hide MovesTo;
    var m, s, k := MovesTo(d), MovesTo(d) + [PAUSE], |MovesTo(d)| - 1;
    assert forall l :: 0 <= l < |m| ==> m[l] == s[l];
    assert dance[i + 0] == SeenAs(s[0]);
    assert dance[i + k] == SeenAs(s[k]) && dance[i + (k + 1)] == SeenAs(s[k + 1]);
    assert m == m[..k] + [m[k]];
  }

  /** The last move of a digit and the pause after it complete the digit. */
  lemma {:induction false} ReadPause(dance: string, i: nat, moves: string, d: nat, digits: seq<nat>)
    requires d <= 9 && i + 2 < |dance| && dance[i + 1] == END_OF_WORD && NodeAt(Looked(moves + [dance[i]])) == d
    ensures Interpret(dance, i, moves, digits) ==
              if dance[i + 2] == END_OF_WORD then Read(digits + [d], i + 3)
                else Interpret(dance, i + 2, [], digits + [d])
  {
    hide NodeAt;
  }

  lemma {:induction false} ReadDigits(dance: string, i: nat, ds: seq<nat>, k: nat)
    requires Shows(dance, i, Spelled(ds) + [PAUSE]) && k < |ds| && forall l :: 0 <= l < |ds| ==> ds[l] <= 9
    ensures Interpret(dance, i, [], []) == Interpret(dance, i + |Spelled(ds[..k])|, [], ds[..k])
    ensures Shows(dance, i + |Spelled(ds[..k])|, MovesTo(ds[k]) + [PAUSE])
    ensures i + |Spelled(ds[..k + 1])| < |dance|
    ensures |Spelled(ds[..k + 1])| == |Spelled(ds[..k])| + |MovesTo(ds[k])| + 1
  {
    hide Shows;
    hide Spelled;
    hide MovesTo;
    hide Interpret;
    SpelledPart(ds, k);
    ShowsFits(dance, i, Spelled(ds) + [PAUSE]);
    ShowsPart(dance, i, Spelled(ds) + [PAUSE], |Spelled(ds[..k])|, MovesTo(ds[k]) + [PAUSE]);
    if k > 0 {
      ReadDigits(dance, i, ds, k - 1);
      ReadDigit(dance, i + |Spelled(ds[..k - 1])|, ds[k - 1], ds[..k - 1]);
      DigitShown(dance, i + |Spelled(ds[..k])|, ds[k]);
      assert ds[..k] == ds[..k - 1] + [ds[k - 1]];
    } else {
      NothingSpelled(ds);
    }
  }

  lemma NothingSpelled(ds: seq<nat>)
    ensures ds[..0] == [] && Spelled(ds[..0]) == []
  {
  }

  lemma ShowsFits(dance: string, i: nat, s: string)
    requires Shows(dance, i, s)
    ensures i + |s| <= |dance|
  {
  }

  lemma ShowsPart(dance: string, i: nat, s: string, from: nat, part: string)
    requires Shows(dance, i, s) && from + |part| <= |s| && s[from..from + |part|] == part
    ensures Shows(dance, i + from, part)
  {
    forall k | 0 <= k < |part|
      ensures dance[i + from + k] == SeenAs(part[k])
    {
      assert dance[i + (from + k)] == SeenAs(s[from + k]);
      assert s[from..from + |part|][k] == s[from + k];
    }
  }

  /** Where the k-th digit stands in the spelling. */
  lemma {:induction false} SpelledPart(ds: seq<nat>, k: nat)
    requires k < |ds|
    ensures var a := |Spelled(ds[..k])|;
            && |Spelled(ds[..k + 1])| == a + |MovesTo(ds[k])| + 1 <= |Spelled(ds)|
            && (Spelled(ds) + [PAUSE])[a..a + |MovesTo(ds[k])| + 1] == MovesTo(ds[k]) + [PAUSE]
  {
    SpelledStep(ds, k);
    SpelledPrefix(ds, k + 1);
    hide Spelled;
    hide MovesTo;
    assert Spelled(ds)[..|Spelled(ds[..k + 1])|] == Spelled(ds[..k + 1]);
  }

  lemma {:induction false} SpelledPrefix(ds: seq<nat>, k: nat)
    requires k <= |ds|
    ensures Spelled(ds[..k]) <= Spelled(ds)
    decreases |ds| - k
  {
    if k < |ds| {
      SpelledStep(ds, k);
      SpelledPrefix(ds, k + 1);
    } else {
      assert ds[..k] == ds;
    }
  }

  /** A coordinate's dance, wherever it stands in a longer one, is read as that coordinate, to its end. */
  lemma ReadCoordinate(dance: string, i: nat, n: nat)
    requires Shows(dance, i, Dance(n))
    ensures Interpret(dance, i, [], []) == Read(Digits(n), i + |Dance(n)|)
  {
    ValueOfDigits(n);
    ReadAll(dance, i, Digits(n));
  }

  lemma ReadAll(dance: string, i: nat, ds: seq<nat>)
    requires ds != [] && Shows(dance, i, Spelled(ds) + [PAUSE]) && forall l :: 0 <= l < |ds| ==> ds[l] <= 9
    ensures Interpret(dance, i, [], []) == Read(ds, i + |Spelled(ds)| + 1)
  {
    hide Interpret;
    hide NodeAt;
    hide Spelled;
    hide MovesTo;
    hide Shows;
    LastPause(dance, i, Spelled(ds));
    var a, front, last := UpToLast(dance, i, ds);
    ReadDigit(dance, a, last, front);
  }

  /** All digits but the last have been read at position a, where the last one stands. */
  lemma UpToLast(dance: string, i: nat, ds: seq<nat>) returns (a: nat, front: seq<nat>, last: nat)
    requires ds != [] && Shows(dance, i, Spelled(ds) + [PAUSE]) && forall l :: 0 <= l < |ds| ==> ds[l] <= 9
    ensures ds == front + [last] && last <= 9
    ensures Interpret(dance, i, [], []) == Interpret(dance, a, [], front)
    ensures Shows(dance, a, MovesTo(last) + [PAUSE]) && a + |MovesTo(last)| + 1 == i + |Spelled(ds)|
  {
    hide Interpret;
    hide NodeAt;
    hide Spelled;
    hide MovesTo;
    hide Shows;
    var k := |ds| - 1;
    ReadDigits(dance, i, ds, k);
    a, front, last := i + |Spelled(ds[..k])|, ds[..k], ds[k];
    assert ds[..k + 1] == ds;
  }

  lemma LastPause(dance: string, i: nat, s: string)
    requires Shows(dance, i, s + [PAUSE])
    ensures i + |s| < |dance| && dance[i + |s|] == END_OF_WORD
  {
    assert (s + [PAUSE])[|s|] == PAUSE;
  }

  /** The message as it is seen, read from the position after the message type, gives x and then y. */
  lemma MessageRoundTrip(x: nat, y: nat)
    ensures var dance := Seen(Message(x, y));
            var first := Interpret(dance, X_COORD_START, [], []);
            && first.Read? && Value(first.digits) == x
            && var second := Interpret(dance, first.next, [], []);
               second.Read? && Value(second.digits) == y && second.next == |dance|
  {
    hide Dance;
    var message, dance := Message(x, y), Seen(Message(x, y));
    assert forall k :: 0 <= k < |Dance(x)| ==> message[1 + k] == Dance(x)[k];
    assert forall k :: 0 <= k < |Dance(y)| ==> message[1 + |Dance(x)| + k] == Dance(y)[k];
    ReadCoordinate(dance, 1, x);
    ReadCoordinate(dance, 1 + |Dance(x)|, y);
    ValueOfDigits(x);
    ValueOfDigits(y);
  }

  /** The frames t are a dancer performing s: one excursion for each letter, and some that touch no window. */
  predicate Performs(t: seq<Frame>, s: string) {
    Trace(t) && Recorded(t) == Seen(s)
  }

  // -------------------------------------------------------------- what can be performed

  const INITIAL := Frame(true, false, false, false)

  /** A frame in the window of a letter. */
  function FrameOf(c: char): Frame {
    if c == LEFT then Frame(false, true, false, false)
    else if c == RIGHT then Frame(false, false, true, false)
    else Frame(false, false, false, true)
  }

  /** A dancer that swings to the window of each letter and back. */
  function TraceOf(s: string): seq<Frame> {
    if s == [] then [] else TraceOf(s[..|s| - 1]) + [FrameOf(s[|s| - 1])] + [INITIAL]
  }

  /** Frames away from the initial heading stay unfinished and record nothing. */
  lemma {:induction false} AwayRecordsNothing(t: seq<Frame>, x: seq<Frame>)
    requires Unfinished(t) == [] && forall i :: 0 <= i < |x| ==> !x[i].initial
    ensures Recorded(t + x) == Recorded(t) && Unfinished(t + x) == x
  {
    hide Excursions;
    hide Unfinished;
    if x == [] {
      assert t + x == t;
    } else {
      var front, f := x[..|x| - 1], x[|x| - 1];
      AwayRecordsNothing(t, front);
      ExcursionsSnoc(t + front, f);
      assert t + x == (t + front) + [f];
    }
  }

  /** Coming back to the initial heading records what the excursion says. */
  lemma ExcursionRecorded(t: seq<Frame>, x: seq<Frame>, f: Frame)
    requires Unfinished(t) == [] && f.initial && forall i :: 0 <= i < |x| ==> !x[i].initial
    ensures Recorded(t + x + [f]) == Recorded(t) + Symbol(x) && Unfinished(t + x + [f]) == []
  {
    hide Excursions;
    hide Unfinished;
    hide Symbol;
    AwayRecordsNothing(t, x);
    ExcursionsSnoc(t + x, f);
    SpokenConcat(Excursions(t + x), [x]);
    assert Spoken([x]) == Symbol(x);
  }

  /** On the way to the rear a dancer sweeps past a side, and the observer still records a single pause. */
  lemma PauseThroughSide(before: Frame, sides: seq<Frame>, rears: seq<Frame>, after: Frame)
    requires before.initial && after.initial && rears != []
    requires forall i :: 0 <= i < |sides| ==> !sides[i].initial && (sides[i].left || sides[i].right)
    requires forall i :: 0 <= i < |rears| ==> !rears[i].initial && rears[i].rear
    ensures Recorded([before] + (sides + rears) + [after]) == "_"
  {
    ExcursionRecorded([], [], before);
    assert [] + [] + [before] == [before];
    var x := sides + rears;
    ExcursionRecorded([before], x, after);
    assert x[|sides|].rear;
    assert Recorded([]) == [] && Symbol([]) == [];
    hide Recorded;
  }

  /** An excursion that keeps away from the rear is recorded as the side that it comes to first. */
  lemma FirstSideRecorded(before: Frame, x: seq<Frame>, after: Frame, k: nat)
    requires before.initial && after.initial && k < |x| && (x[k].left || x[k].right)
    requires forall i :: 0 <= i < |x| ==> OneWindow(x[i]) && !x[i].initial && !x[i].rear
    requires forall i :: 0 <= i < k ==> !x[i].left && !x[i].right
    ensures Recorded([before] + x + [after]) == if x[k].left then "l" else "r"
  {
    ExcursionRecorded([], [], before);
    assert [] + [] + [before] == [before];
    ExcursionRecorded([before], x, after);
    assert Recorded([]) == [] && Symbol([]) == [];
    FirstSideAt(x, k);
    hide Recorded;
  }

  lemma {:induction false} FirstSideAt(x: seq<Frame>, k: nat)
    requires k < |x| && (x[k].left || x[k].right) && forall i :: 0 <= i < k ==> !x[i].left && !x[i].right
    ensures FirstSide(x) == if x[k].left then "l" else "r"
  {
    if k > 0 {
      FirstSideAt(x[1..], k - 1);
    }
  }

  /** The message for a source at (1, 0). */
  lemma MessageOfOneZero()
    ensures Message(1, 0) == "lrpplpp" && Seen(Message(1, 0)) == "lr__l__"
  {
    hide MovesTo;
    DigitMoves();
    assert Digits(1) == [1] && Digits(0) == [0];
    assert forall n: nat :: [n][..0] == [];
    assert Spelled([1]) == "rp" && Spelled([0]) == "lp";
    hide Digits;
    hide Spelled;
  }

  /** The letters that a performance can show. */
  predicate Danceable(s: string) {
    forall i :: 0 <= i < |s| ==> s[i] == LEFT || s[i] == RIGHT || s[i] == PAUSE || s[i] == END_OF_WORD
  }

  lemma {:induction false} TraceOfPerforms(s: string)
    requires Danceable(s)
    ensures Performs(TraceOf(s), s) && Unfinished(TraceOf(s)) == []
  {
    if s != [] {
      var front, c := s[..|s| - 1], s[|s| - 1];
      TraceOfPerforms(front);
      var x := [FrameOf(c)];
      ExcursionRecorded(TraceOf(front), x, INITIAL);
      assert Symbol(x) == [SeenAs(c)] by {
        assert c == PAUSE || c == END_OF_WORD ==> x[0].rear;
      }
      assert Seen(s) == Seen(front) + [SeenAs(c)];
      hide Recorded;
      hide Symbol;
    }
  }

  /** Only sides and pauses are ever recorded. */
  lemma {:induction false} SpokenLetters(xs: seq<seq<Frame>>)
    ensures forall i :: 0 <= i < |Spoken(xs)| ==> Spoken(xs)[i] in [LEFT, RIGHT, END_OF_WORD]
  {
    if xs != [] {
      FirstSideLetters(xs[0]);
      SpokenLetters(xs[1..]);
    }
  }

  lemma {:induction false} FirstSideLetters(x: seq<Frame>)
    ensures FirstSide(x) in [[], [LEFT], [RIGHT]]
  {
    if x != [] {
      FirstSideLetters(x[1..]);
    }
  }

  /** A string can be performed exactly when it consists of sides and pauses. */
  lemma PerformableStrings(s: string)
    ensures (exists t :: Performs(t, s)) <==> Danceable(s)
  {
    if Danceable(s) {
      TraceOfPerforms(s);
    }
    if t :| Performs(t, s) {
      SpokenLetters(Excursions(t));
      forall i | 0 <= i < |s|
        ensures s[i] == LEFT || s[i] == RIGHT || s[i] == PAUSE || s[i] == END_OF_WORD
      {
        assert Recorded(t)[i] == SeenAs(s[i]);
      }
    }
  }

  lemma {:induction false} SpelledDanceable(ds: seq<nat>)
    ensures Danceable(Spelled(ds))
  {
    if ds != [] {
      SpelledDanceable(ds[..|ds| - 1]);
      MovesAreSides(ds[|ds| - 1]);
    }
  }

  /** Every message can be performed, so what DanceAndRead asks for does happen. */
  lemma MessagePerformable(x: nat, y: nat)
    ensures exists t :: Performs(t, Message(x, y))
  {
    SpelledDanceable(Digits(x));
    SpelledDanceable(Digits(y));
    hide Spelled;
    hide Digits;
    PerformableStrings(Message(x, y));
  }

  /** A bee that watches a dance of x and y and reads what it recorded knows of a source at x and y. */
  method DanceAndRead(x: nat, y: nat, t: seq<Frame>) returns (foundHoney: bool, honeyX: nat, honeyY: nat)
    requires Performs(t, Message(x, y))
    ensures foundHoney && honeyX == x && honeyY == y
  {
    var observer := new Observer();
    observer.Watch(t);
    MessageRoundTrip(x, y);
    foundHoney := observer.danceMoves[0] == LEFT;
    var next;
    honeyX, next := InterpretCoord(observer.danceMoves, X_COORD_START);
    honeyY, next := InterpretCoord(observer.danceMoves, next);
  }
}
