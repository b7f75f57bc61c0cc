/** The fixed pack-size tables, the prescription types of each tab and the
    tab list of the dosing calculator. */
module DosingConstants {
  import opened DosingTypes

  /** Pairs every size with one unit, keeping the order of the sizes. */
  function WithUnits(sizes: seq<real>, units: string): (r: seq<PackSize>)
    ensures |r| == |sizes|
    ensures forall i :: 0 <= i < |r| ==> r[i].packSize == sizes[i] && r[i].units == units
  {
    seq(|sizes|, i requires 0 <= i < |sizes| => PackSize(sizes[i], units))
  }

  const EyeDropSizes: seq<real> := [2.5, 3.0, 5.0, 6.0, 7.5, 8.0, 10.0, 12.0]
  const EyeDropPackSizes: seq<PackSize> := WithUnits(EyeDropSizes, "mL")

  const EarDropSizes: seq<real> := [5.0, 7.5, 10.0, 15.0]
  const EarDropPackSizes: seq<PackSize> := WithUnits(EarDropSizes, "mL")

  const InsulinSizes: seq<real> := [100.0, 300.0, 500.0]
  const InsulinPackSizes: seq<PackSize> := WithUnits(InsulinSizes, "IU")

  const OzempicSizes: seq<real> := [0.25, 0.5, 1.0, 2.0]
  const OzempicPackSizes: seq<PackSize> := WithUnits(OzempicSizes, "mg")

  const TabletSizes: seq<real> := [5.0, 10.0, 20.0, 50.0, 100.0]
  const TabletPackSizes: seq<PackSize> := WithUnits(TabletSizes, "mg")

  const CapsuleSizes: seq<real> := [50.0, 100.0, 200.0, 500.0]
  const CapsulePackSizes: seq<PackSize> := WithUnits(CapsuleSizes, "mg")

  const DropTypes: seq<Prescription> := [Eye, Ear]
  const InjectionTypes: seq<Prescription> := [Insulin, Ozempic]
  const PillTypes: seq<Prescription> := [Tablet, Capsule]

  /** The sizes of a table, in order. */
  function Sizes(table: seq<PackSize>): (r: seq<real>)
    ensures |r| == |table| && forall i :: 0 <= i < |r| ==> r[i] == table[i].packSize
  {
    seq(|table|, i requires 0 <= i < |table| => table[i].packSize)
  }

  /** Every entry of the table has unit u. */
  predicate SingleUnit(table: seq<PackSize>, u: string) {
    forall i :: 0 <= i < |table| ==> table[i].units == u
  }

  predicate Positive(s: seq<real>) {
    forall i :: 0 <= i < |s| ==> s[i] > 0.0
  }

  predicate Ascending(s: seq<real>) {
    forall i, j :: 0 <= i < j < |s| ==> s[i] < s[j]
  }

  /** Each element below the next. */
  predicate Chain(s: seq<real>) {
    |s| <= 1 || (s[0] < s[1] && Chain(s[1..]))
  }

  lemma {:induction false} ChainAscending(s: seq<real>)
    requires Chain(s)
    ensures Ascending(s)
  {
    if |s| > 1 {
      ChainAscending(s[1..]);
      forall i, j | 0 <= i < j < |s|
        ensures s[i] < s[j]
      {
        if i > 0 {
          assert s[1..][i - 1] == s[i] && s[1..][j - 1] == s[j];
        } else if j > 1 {
          assert s[1..][j - 1] == s[j];
        }
      }
    }
  }

  /** A table built from sizes lists those sizes and has one unit. */
  lemma WithUnitsTable(sizes: seq<real>, u: string)
    ensures Sizes(WithUnits(sizes, u)) == sizes && SingleUnit(WithUnits(sizes, u), u)
  {
  }

  /** The eye-drop table: 2.5, 3, 5, 6, 7.5, 8, 10, 12 mL, positive and
      strictly ascending. */
  lemma EyeDropTable()
    ensures Sizes(EyeDropPackSizes) == [2.5, 3.0, 5.0, 6.0, 7.5, 8.0, 10.0, 12.0]
    ensures SingleUnit(EyeDropPackSizes, "mL")
    ensures Positive(EyeDropSizes) && Ascending(EyeDropSizes)
  {
    WithUnitsTable(EyeDropSizes, "mL");
    ChainAscending(EyeDropSizes);
  }

  /** The ear-drop table: 5, 7.5, 10, 15 mL. */
  lemma EarDropTable()
    ensures Sizes(EarDropPackSizes) == [5.0, 7.5, 10.0, 15.0]
    ensures SingleUnit(EarDropPackSizes, "mL")
    ensures Positive(EarDropSizes) && Ascending(EarDropSizes)
  {
    WithUnitsTable(EarDropSizes, "mL");
    ChainAscending(EarDropSizes);
  }

  /** The insulin table: 100, 300, 500 IU. */
  lemma InsulinTable()
    ensures Sizes(InsulinPackSizes) == [100.0, 300.0, 500.0]
    ensures SingleUnit(InsulinPackSizes, "IU")
    ensures Positive(InsulinSizes) && Ascending(InsulinSizes)
  {
    WithUnitsTable(InsulinSizes, "IU");
    ChainAscending(InsulinSizes);
  }

  /** The ozempic table: 0.25, 0.5, 1, 2 mg. */
  lemma OzempicTable()
    ensures Sizes(OzempicPackSizes) == [0.25, 0.5, 1.0, 2.0]
    ensures SingleUnit(OzempicPackSizes, "mg")
    ensures Positive(OzempicSizes) && Ascending(OzempicSizes)
  {
    WithUnitsTable(OzempicSizes, "mg");
    ChainAscending(OzempicSizes);
  }

  /** The tablet table: 5, 10, 20, 50, 100 mg. */
  lemma TabletTable()
    ensures Sizes(TabletPackSizes) == [5.0, 10.0, 20.0, 50.0, 100.0]
    ensures SingleUnit(TabletPackSizes, "mg")
    ensures Positive(TabletSizes) && Ascending(TabletSizes)
  {
    WithUnitsTable(TabletSizes, "mg");
    ChainAscending(TabletSizes);
  }

  /** The capsule table: 50, 100, 200, 500 mg. */
  lemma CapsuleTable()
    ensures Sizes(CapsulePackSizes) == [50.0, 100.0, 200.0, 500.0]
    ensures SingleUnit(CapsulePackSizes, "mg")
    ensures Positive(CapsuleSizes) && Ascending(CapsuleSizes)
  {
    WithUnitsTable(CapsuleSizes, "mg");
    ChainAscending(CapsuleSizes);
  }

  /** The three type lists share no type and together hold each of the six
      prescription types exactly once. */
  lemma TypeListsPartition()
    ensures multiset(DropTypes + InjectionTypes + PillTypes)
         == multiset{Eye, Ear, Insulin, Ozempic, Tablet, Capsule}
    ensures forall t :: !(t in DropTypes && t in InjectionTypes)
    ensures forall t :: !(t in DropTypes && t in PillTypes)
    ensures forall t :: !(t in InjectionTypes && t in PillTypes)
    ensures forall t: Prescription :: t in DropTypes || t in InjectionTypes || t in PillTypes
  {
    forall t: Prescription
      ensures t in DropTypes || t in InjectionTypes || t in PillTypes
    {
      match t
      case Eye => assert DropTypes[0] == t;
      case Ear => assert DropTypes[1] == t;
      case Insulin => assert InjectionTypes[0] == t;
      case Ozempic => assert InjectionTypes[1] == t;
      case Tablet => assert PillTypes[0] == t;
      case Capsule => assert PillTypes[1] == t;
    }
  }
}
