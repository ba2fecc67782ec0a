/** The dance that tells a coordinate: its decimal digits as walks in a binary tree, with pauses. */
module BeeDance {
  import opened Arithmetic

  const LEFT := 'l'
  const RIGHT := 'r'
  const PAUSE := 'p'

  // ------------------------------------------------------------------ decimal digits

  /** The decimal digits of n, first the highest. */
  function Digits(n: nat): (ds: seq<nat>)
    ensures |ds| >= 1
  {
    if n < 10 then [n] else Digits(n / 10) + [n % 10]
  }

  /** The number that a row of digits reads as. */
  function Value(ds: seq<nat>): nat {
    if ds == [] then 0 else 10 * Value(ds[..|ds| - 1]) + ds[|ds| - 1]
  }

  lemma {:induction false} ValueOfDigits(n: nat)
    ensures Value(Digits(n)) == n
    ensures forall i :: 0 <= i < |Digits(n)| ==> Digits(n)[i] <= 9
  {
    if n < 10 {
      assert Value([n]) == n;
    } else {
      ValueOfDigits(n / 10);
      assert Digits(n)[..|Digits(n)| - 1] == Digits(n / 10);
    }
  }

  function Pow10(k: nat): nat {
    if k == 0 then 1 else 10 * Pow10(k - 1)
  }

  // ------------------------------------------------------------------------ the tree

  /** The node above c; the nodes 0 and 1 have none. */
  function Parent(c: nat): int {
    c / 2 - 1
  }

  /** The nodes on the way down to c. */
  function PathTo(c: nat): (p: seq<nat>)
    ensures |p| >= 1 && p[|p| - 1] == c
  {
    if Parent(c) < 0 then [c] else PathTo(Parent(c)) + [c]
  }

  /** An even node is a left child and an odd one a right child. */
  function Move(c: nat): char {
    if c % 2 == 0 then LEFT else RIGHT
  }

  function MovesTo(c: nat): string {
    var p := PathTo(c);
    seq(|p|, i requires 0 <= i < |p| => Move(p[i]))
  }

  lemma MovesToStep(c: nat)
    ensures MovesTo(c) == if Parent(c) < 0 then [Move(c)] else MovesTo(Parent(c)) + [Move(c)]
  {
  }

  /** The walks of the ten digits. */
  lemma DigitMoves()
    ensures MovesTo(0) == "l" && MovesTo(1) == "r"
    ensures MovesTo(2) == "ll" && MovesTo(3) == "lr" && MovesTo(4) == "rl" && MovesTo(5) == "rr"
    ensures MovesTo(6) == "lll" && MovesTo(7) == "llr" && MovesTo(8) == "lrl" && MovesTo(9) == "lrr"
  {
    hide MovesTo;
    MovesToStep(0);
    MovesToStep(1);
    MovesToStep(2);
    MovesToStep(3);
    MovesToStep(4);
    MovesToStep(5);
    MovesToStep(6);
    MovesToStep(7);
    MovesToStep(8);
    MovesToStep(9);
  }

  lemma DigitIsNear(c: nat)
    requires c <= 9
    ensures |MovesTo(c)| <= 3
  {
    MovesToStep(c);
    if Parent(c) >= 0 {
      MovesToStep(Parent(c));
      if Parent(Parent(c)) >= 0 {
        MovesToStep(Parent(Parent(c)));
      }
    }
  }

  // ----------------------------------------------------------------------- the dance

  /** The walks of the digits, each followed by one pause. */
  function Spelled(ds: seq<nat>): string {
    if ds == [] then [] else Spelled(ds[..|ds| - 1]) + MovesTo(ds[|ds| - 1]) + [PAUSE]
  }

  /** The dance for n ends in a second pause. */
  function Dance(n: nat): string {
    Spelled(Digits(n)) + [PAUSE]
  }

  /** The dance for 10: right for the 1, left for the 0, and two pauses at the end. */
  lemma DanceOfTen()
    ensures Dance(10) == "rplpp"
  {
    hide MovesTo;
    DigitMoves();
    assert Digits(1) == [1] && Digits(10) == [1, 0];
    assert [1, 0][..1] == [1] && [1][..0] == [];
    assert Spelled([1]) == "rp";
    assert Spelled([1, 0]) == "rplp";
  }

  /** Moves of the first k digits. */
  function MoveCount(ds: seq<nat>, k: nat): nat
    requires k <= |ds|
  {
    if k == 0 then 0 else MoveCount(ds, k - 1) + |MovesTo(ds[k - 1])|
  }

  lemma {:induction false} SpelledLength(ds: seq<nat>, k: nat)
    requires k <= |ds|
    ensures |Spelled(ds[..k])| == MoveCount(ds, k) + k
  {
    if k > 0 {
      assert ds[..k][..k - 1] == ds[..k - 1];
      SpelledLength(ds, k - 1);
    }
  }

  lemma {:induction false} MoveCountGrows(ds: seq<nat>, j: nat, k: nat)
    requires j <= k <= |ds|
    ensures MoveCount(ds, j) + (k - j) <= MoveCount(ds, k)
    decreases k
  {
    if j < k {
      MoveCountGrows(ds, j, k - 1);
      MovesToStep(ds[k - 1]);
    }
  }

  // ----------------------------------------------------------------------- the loops

  /** getParent, for a node that has one: the tree array holds its own indices. */
  method GetParent(child: nat) returns (p: nat)
    requires Parent(child) >= 0
    ensures p == Parent(child)
    ensures child == 2 * p + 2 || child == 2 * p + 3
  {
    p := child / 2 - 1;
  }

  method GetDepthOfNumber(number: nat) returns (depth: nat)
    ensures depth == |MovesTo(number)|
  {
    depth := 1;
    var currIndex := number;
    MovesToStep(currIndex);
    while Parent(currIndex) >= 0
      invariant depth + |MovesTo(currIndex)| == 1 + |MovesTo(number)|
      decreases currIndex
    {
      MovesToStep(currIndex);
      currIndex := currIndex / 2 - 1;
      depth := depth + 1;
    }
    MovesToStep(currIndex);
  }

  /** The first two loops of buildDance: how many digits, and which. */
  method Units(coords: nat) returns (units: seq<nat>)
    ensures units == Digits(coords)
  {
    var numInts, unitsPlace := 1, 10;
    PlaceOfOne(coords);
    while coords / unitsPlace != 0
      invariant 1 <= numInts <= |Digits(coords)| && unitsPlace == Pow10(numInts) > 0
      decreases |Digits(coords)| - numInts
    {
      DigitCount(coords, numInts);
      numInts := numInts + 1;
      unitsPlace := unitsPlace * 10;
    }
    DigitCount(coords, numInts);
    unitsPlace := unitsPlace / 10;
    DigitsLead(coords);
    assert Digits(coords)[0..] == Digits(coords);
    units := [];
    var tempUnits := coords;
    for i := 0 to numInts
      invariant units == Digits(coords)[..i]
      invariant i < numInts ==> unitsPlace == Pow10(numInts - 1 - i) > 0
      invariant i < numInts ==> Leading(tempUnits, Digits(coords)[i..])
    {
      LeadingDigit(tempUnits, Digits(coords)[i..]);
      units := units + [tempUnits / unitsPlace];
      tempUnits := tempUnits % unitsPlace;
      unitsPlace := unitsPlace / 10;
    }
  }

  lemma PlaceOfOne(n: nat)
    ensures Pow10(1) == 10 && |Digits(n)| >= 1
  {
    assert Pow10(0) == 1;
  }

  /** n has more than k digits just when n / 10^k is not zero. */
  lemma {:induction false} DigitCount(n: nat, k: nat)
    requires 1 <= k <= |Digits(n)|
    ensures Pow10(k) > 0 && Pow10(k) / 10 == Pow10(k - 1) > 0
    ensures n / Pow10(k) != 0 <==> k < |Digits(n)|
  {
    PowPositive(k);
    PowPositive(k - 1);
    if n < 10 {
      assert Pow10(0) == 1;
    } else if k == 1 {
      assert Pow10(0) == 1;
    } else {
      DigitCount(n / 10, k - 1);
      QuotientTwice(n, 10, Pow10(k - 1));
    }
  }

  lemma {:induction false} PowPositive(k: nat)
    ensures Pow10(k) > 0
  {
    if k > 0 {
      PowPositive(k - 1);
    }
  }

  lemma QuotientTwice(n: nat, a: nat, b: nat)
    requires a > 0 && b > 0
    ensures a * b > 0 && n / (a * b) == n / a / b
  {
    var q, r := n / a, n % a;
    var q', r' := q / b, q % b;
    assert n == (q' * b + r') * a + r;
    assert (q' * b + r') * a == q' * (a * b) + r' * a;
    assert r' * a + r < a * b by {
      assert r' <= b - 1;
      MulMono(r', b - 1, a);
      assert (b - 1) * a == a * b - a;
    }
    DivModIs(n, q', r' * a + r, a * b);
  }

  /** n reads as the digits ds with nothing left over. */
  predicate Leading(n: nat, ds: seq<nat>) {
    ds != [] && n == ValueFrom(ds) && forall i :: 0 <= i < |ds| ==> ds[i] <= 9
  }

  /** The number that a row of digits reads as, from its highest digit. */
  function ValueFrom(ds: seq<nat>): nat {
    if ds == [] then 0 else ds[0] * Pow10(|ds| - 1) + ValueFrom(ds[1..])
  }

  lemma {:induction false} ValueFromSnoc(ds: seq<nat>, d: nat)
    ensures ValueFrom(ds + [d]) == 10 * ValueFrom(ds) + d
  {
    if ds == [] {
      assert Pow10(0) == 1;
      assert ([] + [d])[1..] == [];
    } else {
      assert (ds + [d])[1..] == ds[1..] + [d];
      ValueFromSnoc(ds[1..], d);
      assert Pow10(|ds|) == 10 * Pow10(|ds| - 1);
      assert ds[0] * (10 * Pow10(|ds| - 1)) == 10 * (ds[0] * Pow10(|ds| - 1));
    }
  }

  lemma {:induction false} DigitsLead(n: nat)
    ensures Leading(n, Digits(n))
  {
    ValueOfDigits(n);
    if n < 10 {
      assert Pow10(0) == 1;
      assert [n][1..] == [];
      assert ValueFrom([n]) == n;
    } else {
      DigitsLead(n / 10);
      ValueFromSnoc(Digits(n / 10), n % 10);
    }
  }

  lemma {:induction false} ValueFromBelow(ds: seq<nat>)
    requires forall i :: 0 <= i < |ds| ==> ds[i] <= 9
    ensures ValueFrom(ds) < Pow10(|ds|)
  {
    if ds != [] {
      ValueFromBelow(ds[1..]);
      MulMono(ds[0], 9, Pow10(|ds| - 1));
    }
  }

  /** Dividing by the place of the highest digit splits that digit off. */
  lemma LeadingDigit(n: nat, ds: seq<nat>)
    requires Leading(n, ds)
    ensures var place := Pow10(|ds| - 1);
            && place > 0 && n / place == ds[0] && n % place == ValueFrom(ds[1..])
            && (|ds| > 1 ==> Leading(n % place, ds[1..]) && place / 10 == Pow10(|ds| - 2) > 0)
  {
    PowPositive(|ds| - 1);
    ValueFromBelow(ds[1..]);
    DivModIs(n, ds[0], ValueFrom(ds[1..]), Pow10(|ds| - 1));
    if |ds| > 1 {
      PowPositive(|ds| - 2);
    }
  }

  /** The path to a node, filled in from its end. */
  method FillPath(number: nat) returns (pathToIdx: array<nat>)
    ensures fresh(pathToIdx) && pathToIdx[..] == PathTo(number)
  {
    var pathLength := GetDepthOfNumber(number);
    ghost var path := PathTo(number);
    hide PathTo;
    pathToIdx := new nat[pathLength](_ => 0);
    var currIdx := number;
    var pathIdx := pathLength;
    while pathIdx > 0
      invariant 0 <= pathIdx <= pathLength == pathToIdx.Length
      invariant pathIdx > 0 ==> PathTo(currIdx) == path[..pathIdx]
      invariant |path| == pathLength && forall j :: pathIdx <= j < pathLength ==> pathToIdx[j] == path[j]
    {
      pathIdx := pathIdx - 1;
      pathToIdx[pathIdx] := currIdx;
      PathEnds(currIdx, path[..pathIdx + 1]);
      assert path[pathIdx] == path[..pathIdx + 1][pathIdx];
      if pathIdx > 0 {
        // the source looks the parent up at a root too and then drops what it read
        assert path[..pathIdx + 1][..pathIdx] == path[..pathIdx];
        PathBack(currIdx, path[..pathIdx + 1]);
        currIdx := GetParent(currIdx);
      }
    }
  }

  /** The walk to one digit: the path is turned into moves. */
  method WalkTo(number: nat) returns (moves: string)
    ensures moves == MovesTo(number)
  {
    var pathToIdx := FillPath(number);
    hide PathTo;
    moves := [];
    for i := 0 to pathToIdx.Length
      invariant pathToIdx[..] == PathTo(number) && moves == MovesTo(number)[..i]
    {
      assert pathToIdx[i] == PathTo(number)[i];
      if pathToIdx[i] % 2 == 0 {
        moves := moves + [LEFT];
      } else {
        moves := moves + [RIGHT];
      }
    }
  }

  lemma PathEnds(c: nat, p: seq<nat>)
    requires p == PathTo(c)
    ensures p != [] && p[|p| - 1] == c
  {
  }

  lemma PathBack(c: nat, p: seq<nat>)
    requires p == PathTo(c) && |p| > 1
    ensures Parent(c) >= 0 && PathTo(Parent(c)) == p[..|p| - 1]
  {
  }

  lemma SpelledStep(ds: seq<nat>, i: nat)
    requires i < |ds|
    ensures Spelled(ds[..i + 1]) == Spelled(ds[..i]) + MovesTo(ds[i]) + [PAUSE]
    ensures MoveCount(ds, i + 1) == MoveCount(ds, i) + |MovesTo(ds[i])|
  {
    assert ds[..i + 1][..i] == ds[..i];
  }

  /** buildDance */
  method BuildDance(coords: nat) returns (danceMoves: string)
    ensures danceMoves == Dance(coords)
  {
    hide MovesTo;
    hide Spelled;
    hide Digits;
    var units := Units(coords);
    var numInts := |units|;
    var numDanceMoves := 0;
    for i := 0 to numInts
      invariant numDanceMoves == MoveCount(units, i)
    {
      var depth := GetDepthOfNumber(units[i]);
      numDanceMoves := numDanceMoves + depth;
    }
    var totalMoves := numDanceMoves + numInts - 1;
    danceMoves := [];
    SpelledLength(units, 0);
    for i := 0 to numInts
      invariant danceMoves == Spelled(units[..i]) + if i == numInts then [PAUSE] else []
    {
      SpelledStep(units, i);
      SpelledLength(units, i);
      var moves := WalkTo(units[i]);
      danceMoves := danceMoves + moves;
      MoveCountGrows(units, i + 1, numInts);
      if |danceMoves| < totalMoves {
        danceMoves := danceMoves + [PAUSE];
      } else {
        danceMoves := danceMoves + [PAUSE];
        danceMoves := danceMoves + [PAUSE];
      }
    }
    assert units[..numInts] == units;
  }
}
