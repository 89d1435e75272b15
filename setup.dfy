/** The setup form, abstracted to already-parsed values, and what validateSettings and
    collectSettings make of it. */
module Setup {
  import opened Wrappers
  import opened Problems

  /** The checkboxes named `operations`, the times-table toggle among them. */
  datatype FormOp = AdditionBox | SubtractionBox | MultiplicationBox | DivisionBox | TimesTableBox

  /** The four range fields of one operand pair. */
  datatype Bounds = Bounds(min1: int, max1: int, min2: int, max2: int)

  /** The setup form after parsing: the duration, the checked operation boxes and the
      checked direction boxes in form order, the addition and multiplication ranges,
      and the times-table number and range. */
  datatype Form = Form(
    duration: int,
    checked: seq<FormOp>,
    addition: Bounds,
    multiplication: Bounds,
    tableNumber: int,
    tableRange: int,
    directions: seq<Direction>)

  /** The operation entry a checked regular box contributes: subtraction reuses the
      addition ranges and division the multiplication ranges. */
  function EntryFor(box: FormOp, f: Form): (e: OpEntry)
    requires box != TimesTableBox
    ensures UsesFormRanges(e, f)
    ensures e.kind == KindOf(box)
  {
    match box
    case AdditionBox => Arith(Addition, f.addition.min1, f.addition.max1, f.addition.min2, f.addition.max2)
    case SubtractionBox => Arith(Subtraction, f.addition.min1, f.addition.max1, f.addition.min2, f.addition.max2)
    case MultiplicationBox =>
      Arith(Multiplication, f.multiplication.min1, f.multiplication.max1, f.multiplication.min2, f.multiplication.max2)
    case DivisionBox =>
      Arith(Division, f.multiplication.min1, f.multiplication.max1, f.multiplication.min2, f.multiplication.max2)
  }

  /** The operation a regular box selects. */
  function KindOf(box: FormOp): Op
    requires box != TimesTableBox
  {
    match box
    case AdditionBox => Addition
    case SubtractionBox => Subtraction
    case MultiplicationBox => Multiplication
    case DivisionBox => Division
  }

  /** The ranges a regular entry must carry: the addition fields for addition and
      subtraction, the multiplication fields for multiplication and division. */
  predicate UsesFormRanges(e: OpEntry, f: Form) {
    e.Arith? &&
    var b := if e.kind in {Addition, Subtraction} then f.addition else f.multiplication;
    e.min1 == b.min1 && e.max1 == b.max1 && e.min2 == b.min2 && e.max2 == b.max2
  }

  /** The operation list of regular mode: one entry per checked regular box, in form
      order, the times-table box filtered out. */
  function RegularOps(f: Form, boxes: seq<FormOp>): (ops: seq<OpEntry>)
    ensures |ops| <= |boxes|
    ensures forall e :: e in ops ==> UsesFormRanges(e, f)
    ensures |ops| == 0 <==> forall i :: 0 <= i < |boxes| ==> boxes[i] == TimesTableBox
    decreases |boxes|
  {
    if |boxes| == 0 then []
    else
      var last := boxes[|boxes| - 1];
      var prefix := boxes[..|boxes| - 1];
      var rest := RegularOps(f, prefix);
      assert forall i :: 0 <= i < |prefix| ==> prefix[i] == boxes[i];
      if last == TimesTableBox then rest else rest + [EntryFor(last, f)]
  }

  /** The settings collectSettings builds: times-table mode (the operation list is the
      single marker) exactly when the times-table box is checked, regular mode otherwise. */
  function Collected(f: Form): (s: Settings)
    ensures s.duration == f.duration
    ensures (TimesTableMarker in s.operations) <==> (TimesTableBox in f.checked)
    ensures TimesTableBox in f.checked ==>
              s.operations == [TimesTableMarker] &&
              s.timesTable == Some(TimesTable(f.tableNumber, f.tableRange, f.directions))
    ensures TimesTableBox !in f.checked ==>
              s.timesTable == None && forall e :: e in s.operations ==> UsesFormRanges(e, f)
  {
    if TimesTableBox in f.checked then
      Settings(f.duration, [TimesTableMarker], Some(TimesTable(f.tableNumber, f.tableRange, f.directions)))
    else
      Settings(f.duration, RegularOps(f, f.checked), None)
  }

  /** There is something to choose from: a direction in times-table mode, an operation
      in regular mode. */
  predicate HasChoices(s: Settings) {
    if TimesTableMarker in s.operations then s.timesTable.Some? && |s.timesTable.value.directions| > 0
    else |s.operations| > 0
  }

  /** validateSettings: at least one operation box is checked and, when the times-table
      box is, at least one direction. It accepts exactly the forms whose collected
      settings leave the generator something to choose from. */
  function ValidateSettings(f: Form): (ok: bool)
    ensures ok <==> HasChoices(Collected(f))
  {
    var ops := RegularOps(f, f.checked);
    assert TimesTableMarker !in ops by {
      assert forall e :: e in ops ==> e.Arith?;
    }
    |f.checked| > 0 && (TimesTableBox in f.checked ==> |f.directions| > 0)
  }

  /** The settings of a form: times-table mode holds only the marker and the form's
      times table; regular mode holds no times table and, in form order, the entry of
      each checked box. */
  lemma CollectedModes(f: Form)
    ensures TimesTableBox in f.checked ==>
              Collected(f).operations == [TimesTableMarker] &&
              Collected(f).timesTable == Some(TimesTable(f.tableNumber, f.tableRange, f.directions))
    ensures TimesTableBox !in f.checked ==>
              Collected(f).timesTable == None && |Collected(f).operations| == |f.checked| &&
              forall i :: 0 <= i < |f.checked| ==> Collected(f).operations[i] == EntryFor(f.checked[i], f)
  {
    if TimesTableBox !in f.checked {
      RegularOpsLength(f, f.checked);
    }
  }

  /** Without the times-table box every checked box contributes exactly one entry. */
  lemma {:induction false} RegularOpsLength(f: Form, boxes: seq<FormOp>)
    requires TimesTableBox !in boxes
    ensures |RegularOps(f, boxes)| == |boxes|
    ensures forall i :: 0 <= i < |boxes| ==> RegularOps(f, boxes)[i] == EntryFor(boxes[i], f)
    decreases |boxes|
  {
    if |boxes| > 0 {
      var prefix, last := boxes[..|boxes| - 1], boxes[|boxes| - 1];
      assert TimesTableBox !in prefix by {
        assert forall b :: b in prefix ==> b in boxes;
      }
      RegularOpsLength(f, prefix);
      assert last in boxes;
      assert RegularOps(f, boxes) == RegularOps(f, prefix) + [EntryFor(last, f)];
    }
  }
}
