/** The dosing calculator's state: the active tab, the tab's dosing record,
    the pack-size table on show, the packs and prescription lines chosen,
    the labels and the calculated results. */
module DosingModel {
  import opened Optional
  import opened DosingTypes
  import opened DosingConstants

  /** The unit every entry of t's pack-size table carries: the drop types,
      and only they, are measured in millilitres; international units
      belong to an injection. */
  function UnitOf(t: Prescription): (r: string)
    ensures r == "mL" <==> TabOf(t) == Drops
    ensures r == "IU" ==> TabOf(t) == Injections
  {
    match t
    case Eye => "mL"
    case Ear => "mL"
    case Insulin => "IU"
    case Ozempic | Tablet | Capsule => "mg"
  }

  /** The prescription type and unit a tab starts with: a type of that tab,
      with the unit of its pack-size table. */
  function TabConfig(tab: ActiveTab): (r: (Prescription, string))
    ensures TabOf(r.0) == tab && r.1 == UnitOf(r.0)
  {
    match tab
    case Drops => (Eye, "mL")
    case Injections => (Insulin, "IU")
    case Pills => (Tablet, "mg")
  }

  /** r is s with some entries dropped and the rest in their order. */
  predicate Subsequence(r: seq<PackSize>, s: seq<PackSize>)
    decreases |s|
  {
    if |r| == 0 then true
    else if |s| == 0 then false
    else (r[0] == s[0] && Subsequence(r[1..], s[1..])) || Subsequence(r, s[1..])
  }

  /** The entries of s whose unit is u, in order (FilterUnitsMembers,
      FilterUnitsInOrder). */
  function FilterUnits(s: seq<PackSize>, u: string): (r: seq<PackSize>)
    ensures |r| <= |s|
    ensures forall i :: 0 <= i < |r| ==> r[i].units == u
  {
    if |s| == 0 then []
    else
      var tail := FilterUnits(s[1..], u);
      if s[0].units == u then [s[0]] + tail else tail
  }

  /** The dosing record a tab starts with, its packs drawn from `packSizes`:
      no dose yet, the unit of the starting type's table, and the packs of
      `packSizes` in that unit, in order. */
  function DosingFor(tab: ActiveTab, packSizes: seq<PackSize>): (d: Dosing)
    ensures d.activeTab == tab
    ensures d.prescriptionDetails == PrescriptionDetails(0, 0, 0, Some(UnitOf(d.rxType)))
    ensures forall p :: p in d.packSizes <==> p in packSizes && p.units == UnitOf(d.rxType)
    ensures d.rxType == TabConfig(tab).0
    ensures Subsequence(d.packSizes, packSizes)
  {
    var (rxType, units) := TabConfig(tab);
    FilterUnitsMembers(packSizes, units);
    FilterUnitsInOrder(packSizes, units);
    Dosing(tab, rxType, PrescriptionDetails(0, 0, 0, Some(units)), FilterUnits(packSizes, units))
  }

  /** What one prescription line adds to the total dose. */
  function Contribution(d: PrescriptionDetails): int {
    d.dose * d.frequency * d.duration
  }

  /** The total dose, accumulated from the first line to the last; lines
      with no negative field give no negative total. */
  function TotalDose(lines: seq<PrescriptionDetails>): (r: int)
    ensures (forall i :: 0 <= i < |lines| ==>
               lines[i].dose >= 0 && lines[i].frequency >= 0 && lines[i].duration >= 0) ==> r >= 0
    decreases |lines|
  {
    if |lines| == 0 then 0 else TotalDose(lines[..|lines| - 1]) + Contribution(lines[|lines| - 1])
  }

  /** The same total, summed from the last line to the first. */
  function SumOfProducts(lines: seq<PrescriptionDetails>): int
    decreases |lines|
  {
    if |lines| == 0 then 0 else Contribution(lines[0]) + SumOfProducts(lines[1..])
  }

  /** k packs of size packSize hold at least totalDose. */
  predicate Covers(k: int, packSize: real, totalDose: int) {
    k as real * packSize >= totalDose as real
  }

  /** The least integer not below r. */
  function Ceil(r: real): (c: int)
    ensures r <= c as real < r + 1.0
  {
    -((-r).Floor)
  }

  /** One result per selected pack, in order: its size, its unit and how
      many such packs the total needs. */
  function PacksNeeded(totalDose: int, packs: seq<PackSize>): (r: seq<PackResult>)
    requires forall i :: 0 <= i < |packs| ==> packs[i].packSize != 0.0
    ensures |r| == |packs|
    ensures forall i :: 0 <= i < |r| ==>
      && r[i].packSize == packs[i].packSize && r[i].units == packs[i].units
      && r[i].quantity == Ceil(totalDose as real / packs[i].packSize)
  {
    if |packs| == 0 then []
    else
      [PackResult(packs[0].packSize, packs[0].units, Ceil(totalDose as real / packs[0].packSize))]
        + PacksNeeded(totalDose, packs[1..])
  }

  class DosingModel {
    var activeTab: ActiveTab
    var dosing: Dosing
    var packSizes: seq<PackSize>
    var selectedPackSizes: seq<PackSize>
    var dosingLabel: string
    var packLabel: string
    var finalPrescriptionDetails: seq<PrescriptionDetails>
    var results: Option<Results>

    /** The Drops tab with the eye-drop table, nothing selected. */
    constructor()
      ensures activeTab == Drops && packSizes == EyeDropPackSizes
      ensures dosing == DosingFor(Drops, EyeDropPackSizes)
      ensures dosingLabel == "drop" && packLabel == "Bottle Sizes"
      ensures selectedPackSizes == [] && finalPrescriptionDetails == [] && results == None
    {
      selectedPackSizes := [];
      dosingLabel := "drop";
      packLabel := "Pack Sizes";
      finalPrescriptionDetails := [];
      results := None;
      activeTab := Drops;
      packSizes := EyeDropPackSizes;
      new;
      dosing := InitializeDosing(Drops);
    }

    /** The starting dosing record of a tab, its packs filtered from the
        table currently held; sets the tab's labels as it goes. */
    method InitializeDosing(tab: ActiveTab) returns (d: Dosing)
      modifies this`dosingLabel, this`packLabel
      ensures d == DosingFor(tab, packSizes)
      ensures tab == Drops ==> dosingLabel == "drop" && packLabel == "Bottle Sizes"
      ensures tab == Injections ==> dosingLabel == "jab" && packLabel == "Strengths"
      ensures tab == Pills ==> dosingLabel == "pill" && packLabel == "Strengths"
    {
      var (rxType, units) := TabConfig(tab);
      var defaultDetails := PrescriptionDetails(0, 0, 0, Some(units));
      if tab == Drops {
        dosingLabel := "drop";
        packLabel := "Bottle Sizes";
      } else if tab == Injections {
        dosingLabel := "jab";
        packLabel := "Strengths";
      } else {
        dosingLabel := "pill";
        packLabel := "Strengths";
      }
      d := Dosing(tab, rxType, defaultDetails, FilterUnits(packSizes, units));
    }

    /** Switch tab: the dosing record starts afresh from the table held
        before the call, and the labels follow the tab. */
    method SetActiveTab(tab: ActiveTab)
      modifies this
      ensures activeTab == tab && dosing == DosingFor(tab, old(packSizes))
      ensures dosing.rxType == GetPrescriptionTypes()[0]
      ensures tab == Drops ==> dosing.rxType == Eye && dosing.prescriptionDetails.units == Some("mL")
      ensures tab == Injections ==> dosing.rxType == Insulin && dosing.prescriptionDetails.units == Some("IU")
      ensures tab == Pills ==> dosing.rxType == Tablet && dosing.prescriptionDetails.units == Some("mg")
      ensures tab == Drops ==> dosingLabel == "drop" && packLabel == "Bottle Sizes"
      ensures tab == Injections ==> dosingLabel == "jab" && packLabel == "Strengths"
      ensures tab == Pills ==> dosingLabel == "pill" && packLabel == "Strengths"
      ensures packSizes == old(packSizes) && selectedPackSizes == old(selectedPackSizes)
      ensures finalPrescriptionDetails == old(finalPrescriptionDetails) && results == old(results)
    {
      activeTab := tab;
      dosing := InitializeDosing(tab);
    }

    /** Choose a prescription type: it replaces the type in the dosing
        record, and its own table becomes the one on show. */
    method SetPrescriptionType(t: Prescription)
      modifies this`dosing, this`packSizes
      ensures dosing == old(dosing).(rxType := t)
      ensures packSizes == GetPackSizes(t)
    {
      dosing := dosing.(rxType := t);
      packSizes := GetPackSizes(t);
    }

    /** The prescription types the active tab offers; the first is the
        type the tab starts with. */
    function GetPrescriptionTypes(): (r: seq<Prescription>)
      reads this
      ensures |r| == 2 && r[0] == TabConfig(activeTab).0
      ensures forall t :: t in r <==> TabOf(t) == activeTab
    {
      if activeTab == Drops then DropTypes
      else if activeTab == Injections then InjectionTypes
      else PillTypes
    }

    /** The pack-size table of a prescription type: non-empty, positive,
        strictly ascending and all in the type's unit. */
    static function GetPackSizes(t: Prescription): (r: seq<PackSize>)
      ensures |r| > 0 && SingleUnit(r, UnitOf(t))
      ensures Positive(Sizes(r)) && Ascending(Sizes(r))
    {
      match t
      case Eye => EyeDropTable(); EyeDropPackSizes
      case Ear => EarDropTable(); EarDropPackSizes
      case Insulin => InsulinTable(); InsulinPackSizes
      case Ozempic => OzempicTable(); OzempicPackSizes
      case Tablet => TabletTable(); TabletPackSizes
      case Capsule => CapsuleTable(); CapsulePackSizes
    }

    method UpdatePrescriptionDetails(details: seq<PrescriptionDetails>)
      modifies this`finalPrescriptionDetails
      ensures finalPrescriptionDetails == details
    {
      finalPrescriptionDetails := details;
    }

    /** Total the prescription lines and work out, for every selected pack,
        how many packs cover the total. */
    method CalculateResults()
      requires forall i :: 0 <= i < |selectedPackSizes| ==> selectedPackSizes[i].packSize != 0.0
      modifies this`results
      ensures results == Some(Results(TotalDose(finalPrescriptionDetails),
                                      PacksNeeded(TotalDose(finalPrescriptionDetails), selectedPackSizes)))
    {
      var totalDose := TotalDose(finalPrescriptionDetails);
      var packsNeeded := PacksNeeded(totalDose, selectedPackSizes);
      results := Some(Results(totalDose, packsNeeded));
    }

    method SetSelectedPackSizes(selectedSizes: seq<PackSize>)
      modifies this`selectedPackSizes
      ensures selectedPackSizes == selectedSizes
    {
      selectedPackSizes := selectedSizes;
    }

    /** Clear the selections and results and put back the eye-drop table and
        the Drops labels. The dosing record built for Drops is thrown away, so
        the tab and the dosing record stay as they were. */
    method Reset()
      modifies this
      ensures dosingLabel == "drop" && packLabel == "Bottle Sizes"
      ensures packSizes == EyeDropPackSizes && results == None
      ensures selectedPackSizes == [] && finalPrescriptionDetails == []
      ensures activeTab == old(activeTab) && dosing == old(dosing)
    {
      var discarded := InitializeDosing(Drops);
      packSizes := EyeDropPackSizes;
      results := None;
      selectedPackSizes := [];
      finalPrescriptionDetails := [];
    }
  }

  // ---------------------------------------------------------------------------
  // Properties of the calculation

  /** Accumulating left to right gives the plain sum of the products. */
  lemma {:induction false} TotalDoseIsSum(lines: seq<PrescriptionDetails>)
    ensures TotalDose(lines) == SumOfProducts(lines)
  {
    if |lines| > 0 {
      TotalDoseAppend(lines[..1], lines[1..]);
      assert lines[..1] + lines[1..] == lines;
      TotalDoseIsSum(lines[1..]);
      assert TotalDose(lines[..1]) == Contribution(lines[0]);
    }
  }

  /** The total of two runs of lines is the sum of their totals. */
  lemma {:induction false} TotalDoseAppend(a: seq<PrescriptionDetails>, b: seq<PrescriptionDetails>)
    ensures TotalDose(a + b) == TotalDose(a) + TotalDose(b)
    decreases |b|
  {
    if |b| == 0 {
      assert a + b == a;
    } else {
      TotalDoseAppend(a, b[..|b| - 1]);
      assert (a + b)[..|a + b| - 1] == a + b[..|b| - 1];
    }
  }

  /** For a positive pack size the quantity is the least number of packs
      whose combined size reaches the total. */
  lemma QuantityIsLeastCover(totalDose: int, packSize: real)
    requires packSize > 0.0
    ensures Covers(Ceil(totalDose as real / packSize), packSize, totalDose)
    ensures forall k: int :: Covers(k, packSize, totalDose) ==> k >= Ceil(totalDose as real / packSize)
  {
    var t := totalDose as real;
    assert (t / packSize) * packSize == t;
    forall k: int | Covers(k, packSize, totalDose)
      ensures k >= Ceil(t / packSize)
    {
      DivideBound(k as real, t, packSize);
    }
  }

  /** Dividing both sides by a positive size keeps the bound. */
  lemma DivideBound(k: real, t: real, p: real)
    requires p > 0.0 && k * p >= t
    ensures k >= t / p
  {
    assert k == (k * p) / p;
  }

  /** Filtering keeps exactly the entries in the unit, each as often as it
      occurs. */
  lemma {:induction false} FilterUnitsMembers(s: seq<PackSize>, u: string)
    ensures forall p :: p in FilterUnits(s, u) <==> p in s && p.units == u
    ensures forall p :: multiset(FilterUnits(s, u))[p] == if p.units == u then multiset(s)[p] else 0
    decreases |s|
  {
    if |s| > 0 {
      FilterUnitsMembers(s[1..], u);
      assert s == [s[0]] + s[1..];
      assert multiset(s) == multiset{s[0]} + multiset(s[1..]);
    }
  }

  /** A tab's starting record holds each held pack in the starting unit as
      often as the table does, and no other pack. */
  lemma DosingForCounts(tab: ActiveTab, packSizes: seq<PackSize>)
    ensures var d := DosingFor(tab, packSizes);
      forall p :: multiset(d.packSizes)[p] == if p.units == UnitOf(d.rxType) then multiset(packSizes)[p] else 0
  {
    FilterUnitsMembers(packSizes, TabConfig(tab).1);
  }

  /** Filtering keeps the order of the entries it keeps. */
  lemma {:induction false} FilterUnitsInOrder(s: seq<PackSize>, u: string)
    ensures Subsequence(FilterUnits(s, u), s)
    decreases |s|
  {
    if |s| > 0 {
      var tail := FilterUnits(s[1..], u);
      FilterUnitsInOrder(s[1..], u);
      if s[0].units == u {
        assert ([s[0]] + tail)[1..] == tail;
      }
    }
  }

  /** With nothing to dispense, no pack is needed. */
  lemma ZeroTotalNeedsNoPacks(packs: seq<PackSize>)
    requires forall i :: 0 <= i < |packs| ==> packs[i].packSize != 0.0
    ensures forall i :: 0 <= i < |packs| ==> PacksNeeded(0, packs)[i].quantity == 0
  {
  }

  /** Packs chosen from a type's table all have a positive size, so the
      calculation never divides by zero. */
  lemma TableSelectionPositive(t: Prescription, selection: seq<PackSize>)
    requires forall i :: 0 <= i < |selection| ==> selection[i] in DosingModel.GetPackSizes(t)
    ensures forall i :: 0 <= i < |selection| ==> selection[i].packSize > 0.0
  {
    var table := DosingModel.GetPackSizes(t);
    forall i | 0 <= i < |selection|
      ensures selection[i].packSize > 0.0
    {
      var k :| 0 <= k < |table| && table[k] == selection[i];
      assert Sizes(table)[k] == table[k].packSize;
    }
  }

  /** Each type has its own table. */
  lemma TablesDistinct(t: Prescription, u: Prescription)
    requires t != u
    ensures DosingModel.GetPackSizes(t) != DosingModel.GetPackSizes(u)
  {
    EyeDropTable();
    EarDropTable();
    InsulinTable();
    OzempicTable();
    TabletTable();
    CapsuleTable();
    var a, b := DosingModel.GetPackSizes(t), DosingModel.GetPackSizes(u);
    assert Sizes(a)[0] != Sizes(b)[0] || a[0].units != b[0].units || |a| != |b|;
  }
}
