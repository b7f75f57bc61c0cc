/** The prescription lines editor: lines of dose, times daily and days are
    added, removed and edited, and an edit hands the whole list to the
    dosing model. */
module PrescriptionInput {
  import opened Optional
  import opened DosingTypes
  import opened DosingConstants
  import DosingModel

  /** The three numbers of a prescription line. */
  datatype Field = Dose | Frequency | Duration

  /** The value of one field of a line. */
  function Get(d: PrescriptionDetails, field: Field): int {
    match field
    case Dose => d.dose
    case Frequency => d.frequency
    case Duration => d.duration
  }

  /** The line with one field replaced: that field reads back the new value
      and everything else is as it was. */
  function SetField(d: PrescriptionDetails, field: Field, value: int): (r: PrescriptionDetails)
    ensures Get(r, field) == value
    ensures forall g :: g != field ==> Get(r, g) == Get(d, g)
    ensures r.units == d.units
  {
    match field
    case Dose => d.(dose := value)
    case Frequency => d.(frequency := value)
    case Duration => d.(duration := value)
  }

  /** The lines without the one at `index`, the rest in order; an index
      outside the list removes nothing. Walks the list as a filter on the
      position does. */
  function RemoveAt(lines: seq<PrescriptionDetails>, index: int): (r: seq<PrescriptionDetails>)
    ensures 0 <= index < |lines| ==> r == lines[..index] + lines[index + 1..]
    ensures !(0 <= index < |lines|) ==> r == lines
  {
    if |lines| == 0 then []
    else (if index == 0 then [] else [lines[0]]) + RemoveAt(lines[1..], index - 1)
  }

  /** The values the selects offer: dose and times daily 0 to 5, days 0 to 30. */
  predicate InRange(field: Field, value: int) {
    match field
    case Dose => 0 <= value <= 5
    case Frequency => 0 <= value <= 5
    case Duration => 0 <= value <= 30
  }

  /** Every field of the line holds an offered value. */
  predicate Offered(d: PrescriptionDetails) {
    InRange(Dose, d.dose) && InRange(Frequency, d.frequency) && InRange(Duration, d.duration)
  }

  /** The dose label, with an "s" exactly when the dose is above one. */
  function UnitLabel(noun: string, dose: int): (r: string)
    ensures |noun| <= |r| && r[..|noun|] == noun
    ensures (|noun| < |r|) <==> dose > 1
    ensures dose > 1 ==> r == noun + "s"
  {
    if dose > 1 then noun + "s" else noun
  }

  /** The One/Both toggle shows for the drop types only. */
  function ToggleVisible(rxType: Prescription): (r: bool)
    ensures r <==> rxType in DropTypes
  {
    rxType == Ear || rxType == Eye
  }

  class PrescriptionInput {
    var lines: seq<PrescriptionDetails>
    const dosingModel: DosingModel.DosingModel

    /** One line to begin with: the model's current prescription details. */
    constructor(model: DosingModel.DosingModel)
      ensures lines == [model.dosing.prescriptionDetails] && dosingModel == model
    {
      lines := [model.dosing.prescriptionDetails];
      dosingModel := model;
    }

    /** A blank line at the end; the others are kept. */
    method AddLine()
      modifies this`lines
      ensures lines == old(lines) + [PrescriptionDetails(0, 0, 0, None)]
    {
      lines := lines + [PrescriptionDetails(0, 0, 0, None)];
    }

    /** Set one field of one line and hand the lines to the model. */
    method HandleInputChange(index: int, field: Field, value: int)
      requires 0 <= index < |lines|
      modifies this`lines, dosingModel`finalPrescriptionDetails
      ensures lines == old(lines)[index := SetField(old(lines)[index], field, value)]
      ensures dosingModel.finalPrescriptionDetails == lines
    {
      var newLines := lines;
      newLines := newLines[index := SetField(newLines[index], field, value)];
      lines := newLines;
      dosingModel.UpdatePrescriptionDetails(newLines);
    }

    /** Drop one line; the model is not told. */
    method RemoveLine(index: int)
      modifies this`lines
      ensures lines == RemoveAt(old(lines), index)
    {
      lines := RemoveAt(lines, index);
    }

    /** New prescription details in the model start the lines afresh. */
    method PrescriptionDetailsChanged()
      modifies this`lines
      ensures lines == [dosingModel.dosing.prescriptionDetails]
    {
      lines := [dosingModel.dosing.prescriptionDetails];
    }
  }

  // ---------------------------------------------------------------------------
  // Properties of the editor

  /** Removing the line just added gives back the lines. */
  lemma RemoveAddedLine(lines: seq<PrescriptionDetails>, d: PrescriptionDetails)
    ensures RemoveAt(lines + [d], |lines|) == lines
  {
    assert (lines + [d])[..|lines|] == lines;
  }

  /** An edit touches only its own line. */
  lemma EditTouchesOneLine(lines: seq<PrescriptionDetails>, index: nat, field: Field, value: int)
    requires index < |lines|
    ensures var r := lines[index := SetField(lines[index], field, value)];
      |r| == |lines| && Get(r[index], field) == value
      && (forall j :: 0 <= j < |lines| && j != index ==> r[j] == lines[j])
      && (forall g :: g != field ==> Get(r[index], g) == Get(lines[index], g))
  {
  }

  /** A line is fixed by its three fields and its unit, so Get and
      SetField see all of a line. */
  lemma FieldsDetermineLine(a: PrescriptionDetails, b: PrescriptionDetails)
    requires forall f :: Get(a, f) == Get(b, f)
    requires a.units == b.units
    ensures a == b
  {
    assert Get(a, Dose) == Get(b, Dose);
    assert Get(a, Frequency) == Get(b, Frequency);
    assert Get(a, Duration) == Get(b, Duration);
  }

  /** Writing back the value a field holds changes nothing. */
  lemma SetFieldSame(d: PrescriptionDetails, field: Field)
    ensures SetField(d, field, Get(d, field)) == d
  {
    FieldsDetermineLine(SetField(d, field, Get(d, field)), d);
  }

  /** An offered value keeps a line within the offered values. */
  lemma SetFieldKeepsOffered(d: PrescriptionDetails, field: Field, value: int)
    requires Offered(d) && InRange(field, value)
    ensures Offered(SetField(d, field, value))
  {
  }

  /** A line of offered values adds between 0 and 5 * 5 * 30 doses. */
  lemma LineBound(d: PrescriptionDetails)
    requires Offered(d)
    ensures 0 <= DosingModel.Contribution(d) <= 750
  {
    var df := d.dose * d.frequency;
    assert 0 <= df <= 25 by {
      assert d.dose * d.frequency <= 5 * d.frequency;
    }
    assert df * d.duration <= 25 * d.duration;
  }

  /** Lines of offered values total at most 750 each. */
  lemma {:induction false} TotalBound(lines: seq<PrescriptionDetails>)
    requires forall i :: 0 <= i < |lines| ==> Offered(lines[i])
    ensures 0 <= DosingModel.TotalDose(lines) <= 750 * |lines|
    decreases |lines|
  {
    if |lines| > 0 {
      var init := lines[..|lines| - 1];
      assert forall i :: 0 <= i < |init| ==> init[i] == lines[i];
      TotalBound(init);
      LineBound(lines[|lines| - 1]);
    }
  }
}
