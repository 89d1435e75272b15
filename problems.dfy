/** Problem generation of the arithmetic drill game: the settings record, the random
    draws that replace `Math.random`, and the two generators (regular operations and
    times tables) with what each promises about the problem it produces. */
module Problems {
  import opened Wrappers

  /** The four operations of a regular problem. */
  datatype Op = Addition | Subtraction | Multiplication | Division

  /** How a times-table problem is phrased: `n × k`, `k × n`, or a division. */
  datatype Direction = Forward | Reverse | DivisionDirection

  /** One entry of `settings.operations`: a regular operation with its two inclusive
      operand ranges, or the single marker that times-table mode puts there. */
  datatype OpEntry =
    | Arith(kind: Op, min1: int, max1: int, min2: int, max2: int)
    | TimesTableMarker

  /** `settings.timesTable`: the fixed factor, the range of the other factor, and the
      checked directions in form order. */
  datatype TimesTable = TimesTable(number: int, range: int, directions: seq<Direction>)

  /** `settings` as collected from the setup form. */
  datatype Settings = Settings(duration: int, operations: seq<OpEntry>, timesTable: Option<TimesTable>)

  /** A problem shown as `left op right` whose correct answer is `answer`. */
  datatype Problem = Problem(op: Op, left: int, right: int, answer: int)

  /** The random draws of one generation. Regular mode: `pick` chooses the operation,
      `first` and `second` are the offsets of the two operands inside their ranges.
      Times-table mode: `pick` chooses the direction, `first` the other factor minus one,
      and `coin` is the `Math.random() < 0.5` test of the division direction. */
  datatype Draws = Draws(pick: int, first: int, second: int, coin: bool)

  predicate InRange(x: int, lo: int, hi: int) { lo <= x <= hi }

  /** `Math.floor(Math.random() * (hi - lo + 1)) + lo`, with the scaled random number
      already floored to the integer draw `k`. */
  function DrawIn(lo: int, hi: int, k: int): (x: int)
    requires lo <= hi && 0 <= k < hi - lo + 1
    ensures InRange(x, lo, hi)
  {
    k + lo
  }

  /** Every value of the range is drawn by exactly one `k`: the draw is uniform over
      the range when `k` is. */
  lemma DrawCovers(lo: int, hi: int, x: int)
    requires InRange(x, lo, hi)
    ensures exists k :: 0 <= k < hi - lo + 1 && DrawIn(lo, hi, k) == x
    ensures forall k :: 0 <= k < hi - lo + 1 && DrawIn(lo, hi, k) == x ==> k == x - lo
  {
    assert DrawIn(lo, hi, x - lo) == x;
  }

  /** The answer of `p` is the exact result of the operation it shows; a division is
      exact, with no remainder to round away. */
  predicate Exact(p: Problem) {
    match p.op
    case Addition => p.answer == p.left + p.right
    case Subtraction => p.answer == p.left - p.right
    case Multiplication => p.answer == p.left * p.right
    case Division => p.answer * p.right == p.left
  }

  /** The draws fit a regular entry: both ranges are non-empty and both offsets lie
      inside them. */
  predicate ArithFits(e: OpEntry, d: Draws) {
    e.Arith? && e.min1 <= e.max1 && e.min2 <= e.max2 &&
    0 <= d.first < e.max1 - e.min1 + 1 && 0 <= d.second < e.max2 - e.min2 + 1
  }

  /** The two operands as drawn, before subtraction orders them. */
  function FirstOperand(e: OpEntry, d: Draws): int
    requires ArithFits(e, d)
  {
    DrawIn(e.min1, e.max1, d.first)
  }

  function SecondOperand(e: OpEntry, d: Draws): int
    requires ArithFits(e, d)
  {
    DrawIn(e.min2, e.max2, d.second)
  }

  /** generateRegularProblem for the chosen entry. */
  function GenerateRegular(e: OpEntry, d: Draws): (p: Problem)
    requires ArithFits(e, d)
    ensures p.op == e.kind && Exact(p)
    ensures e.kind in {Addition, Multiplication} ==>
              InRange(p.left, e.min1, e.max1) && InRange(p.right, e.min2, e.max2) &&
              p.left == FirstOperand(e, d) && p.right == SecondOperand(e, d)
    ensures e.kind == Subtraction ==>
              p.left >= p.right && p.answer >= 0 &&
              multiset{p.left, p.right} == multiset{FirstOperand(e, d), SecondOperand(e, d)}
    ensures e.kind == Division ==>
              InRange(p.right, e.min1, e.max1) && InRange(p.answer, e.min2, e.max2) &&
              p.right == FirstOperand(e, d) && p.answer == SecondOperand(e, d)
  {
    var x := FirstOperand(e, d);
    var y := SecondOperand(e, d);
    match e.kind
    case Addition => Problem(Addition, x, y, x + y)
    case Subtraction =>
      var larger := if x >= y then x else y;
      var smaller := if x >= y then y else x;
      Problem(Subtraction, larger, smaller, larger - smaller)
    case Multiplication => Problem(Multiplication, x, y, x * y)
    case Division => Problem(Division, x * y, x, y)
  }

  /** The draws fit a times table: a non-empty set of directions to pick from and a
      positive range for the other factor. */
  predicate TimesTableFits(tt: TimesTable, d: Draws) {
    tt.range >= 1 && 0 <= d.pick < |tt.directions| && 0 <= d.first < tt.range
  }

  /** `Math.floor(Math.random() * range) + 1`. */
  function OtherNumber(tt: TimesTable, d: Draws): (k: int)
    requires TimesTableFits(tt, d)
    ensures InRange(k, 1, tt.range)
  {
    d.first + 1
  }

  /** What a times-table problem of direction `dir` looks like, stated without draws:
      forward shows `number × k`, reverse `k × number`, and division shows the product
      divided by one of the two factors and asks for the other, with `k` in `[1, range]`. */
  predicate TimesTableShape(tt: TimesTable, dir: Direction, p: Problem) {
    match dir
    case Forward =>
      p.op == Multiplication && p.left == tt.number && InRange(p.right, 1, tt.range)
    case Reverse =>
      p.op == Multiplication && p.right == tt.number && InRange(p.left, 1, tt.range)
    case DivisionDirection =>
      p.op == Division &&
      ((p.right == tt.number && InRange(p.answer, 1, tt.range) && p.left == tt.number * p.answer) ||
       (InRange(p.right, 1, tt.range) && p.answer == tt.number && p.left == tt.number * p.right))
  }

  /** generateTimesTableProblem. */
  function GenerateTimesTable(tt: TimesTable, d: Draws): (p: Problem)
    requires TimesTableFits(tt, d)
    ensures Exact(p)
    ensures TimesTableShape(tt, tt.directions[d.pick], p)
    ensures tt.directions[d.pick] == Forward ==> p.right == OtherNumber(tt, d)
    ensures tt.directions[d.pick] == Reverse ==> p.left == OtherNumber(tt, d)
    ensures tt.directions[d.pick] == DivisionDirection ==>
              (d.coin ==> p.right == tt.number && p.answer == OtherNumber(tt, d)) &&
              (!d.coin ==> p.right == OtherNumber(tt, d) && p.answer == tt.number)
  {
    var k := OtherNumber(tt, d);
    match tt.directions[d.pick]
    case Forward => Problem(Multiplication, tt.number, k, tt.number * k)
    case Reverse => Problem(Multiplication, k, tt.number, k * tt.number)
    case DivisionDirection =>
      var product := tt.number * k;
      if d.coin then Problem(Division, product, tt.number, k)
      else Problem(Division, product, k, tt.number)
  }

  /** Every problem of the shape of a configured direction is produced by some draws:
      the generator leaves out no problem its direction allows. */
  lemma TimesTableComplete(tt: TimesTable, i: int, p: Problem)
    requires tt.range >= 1 && 0 <= i < |tt.directions|
    requires TimesTableShape(tt, tt.directions[i], p) && Exact(p)
    ensures exists d :: TimesTableFits(tt, d) && GenerateTimesTable(tt, d) == p
  {
    match tt.directions[i]
    case Forward =>
      var d := Draws(i, p.right - 1, 0, false);
      assert GenerateTimesTable(tt, d) == p;
    case Reverse =>
      var d := Draws(i, p.left - 1, 0, false);
      assert GenerateTimesTable(tt, d) == p;
    case DivisionDirection =>
      if p.right == tt.number && InRange(p.answer, 1, tt.range) && p.left == tt.number * p.answer {
        var d := Draws(i, p.answer - 1, 0, true);
        assert GenerateTimesTable(tt, d) == p;
      } else {
        var d := Draws(i, p.right - 1, 0, false);
        assert GenerateTimesTable(tt, d) == p;
      }
  }

  /** The settings and the draws fit each other: in times-table mode (the marker is in
      the operation list) the times table exists and fits; otherwise the drawn index
      selects a regular entry that fits. */
  predicate Fits(s: Settings, d: Draws) {
    if TimesTableMarker in s.operations then
      s.timesTable.Some? && TimesTableFits(s.timesTable.value, d)
    else
      0 <= d.pick < |s.operations| && ArithFits(s.operations[d.pick], d)
  }

  /** The dispatch of generateNewProblem (without its `gameActive` guard): times-table
      mode when the marker is in the operation list, a regular problem otherwise. */
  function Generate(s: Settings, d: Draws): (p: Problem)
    requires Fits(s, d)
    ensures Exact(p)
    ensures TimesTableMarker in s.operations ==>
              TimesTableShape(s.timesTable.value, s.timesTable.value.directions[d.pick], p)
    ensures TimesTableMarker !in s.operations ==> p.op == s.operations[d.pick].kind
  {
    if TimesTableMarker in s.operations then GenerateTimesTable(s.timesTable.value, d)
    else GenerateRegular(s.operations[d.pick], d)
  }

  /** Settings whose every range lies in the non-negative numbers. */
  predicate NonNegative(s: Settings) {
    (forall e :: e in s.operations && e.Arith? ==> 0 <= e.min1 && 0 <= e.min2) &&
    (s.timesTable.Some? ==> s.timesTable.value.number >= 0)
  }

  /** Answers are non-negative when the configured ranges are: always for subtraction,
      and for the other operations only because of the ranges. */
  lemma GeneratedAnswerNonNegative(s: Settings, d: Draws)
    requires Fits(s, d) && NonNegative(s)
    ensures Generate(s, d).answer >= 0
  {
  }

  /** A regular addition can have a negative answer when a range reaches below zero:
      the code does not guarantee non-negative answers on its own. */
  lemma NegativeAdditionReachable(e: OpEntry)
    requires e.Arith? && e.kind == Addition && e.min1 <= e.max1 && e.min2 <= e.max2
    requires e.min1 + e.min2 < 0
    ensures exists d :: ArithFits(e, d) && GenerateRegular(e, d).answer < 0
  {
    var d := Draws(0, 0, 0, false);
    assert GenerateRegular(e, d).answer == e.min1 + e.min2;
  }

  /** A regular division shows a zero divisor whenever zero lies in the first range. */
  lemma ZeroDivisorReachable(e: OpEntry)
    requires e.Arith? && e.kind == Division && e.min1 <= 0 <= e.max1 && e.min2 <= e.max2
    ensures exists d :: ArithFits(e, d) && GenerateRegular(e, d).right == 0
  {
    var d := Draws(0, -e.min1, 0, false);
    assert GenerateRegular(e, d).right == 0;
  }

  /** With a non-zero divisor, the answer of an exact division is the quotient and the
      remainder is zero, so the problem has exactly one correct integer answer. */
  lemma DivisionAnswerIsQuotient(p: Problem)
    requires p.op == Division && Exact(p) && p.right != 0
    ensures p.left % p.right == 0 && p.left / p.right == p.answer
    ensures forall q :: q * p.right == p.left ==> q == p.answer
  {
    var a, b := p.answer, p.right;
    assert p.left == a * b;
    forall q | q * b == p.left ensures q == a {
      assert (q - a) * b == q * b - a * b;
    }
    DivisionOfMultiple(a, b);
  }

  /** `(a * b) / b == a` and `(a * b) % b == 0` under Euclidean division. */
  lemma DivisionOfMultiple(a: int, b: int)
    requires b != 0
    ensures (a * b) % b == 0 && (a * b) / b == a
  {
    var q, r := (a * b) / b, (a * b) % b;
    assert a * b == q * b + r;
    var c := a - q;
    assert c * b == r by { assert c * b == a * b - q * b; }
    var m := if b > 0 then b else -b;
    assert 0 <= r < m;
    if c != 0 {
      var n := if c > 0 then c else -c;
      assert n * m == (if r >= 0 then r else -r) by {
        assert n * m == (if (c > 0) == (b > 0) then c * b else -(c * b));
      }
      ProductAtLeast(n, m);
    }
  }

  /** Kept apart from DivisionOfMultiple so that this nonlinear step is proved in a
      context of its own. */
  lemma ProductAtLeast(n: int, m: int)
    requires n >= 1 && m >= 1
    ensures n * m >= m
  {
  }
}
