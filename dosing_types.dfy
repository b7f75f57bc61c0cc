/** The records of the dosing calculator: tabs, prescription types,
    prescription lines, pack sizes and calculated results. */
module DosingTypes {
  import opened Optional

  /** The three tabs of the calculator. */
  datatype ActiveTab = Drops | Injections | Pills

  /** The six kinds of prescription. */
  datatype Prescription = Eye | Ear | Insulin | Ozempic | Tablet | Capsule

  /** The tab a prescription type belongs to: a dosing record of a tab only
      ever carries one of that tab's two types. */
  function TabOf(t: Prescription): ActiveTab {
    match t
    case Eye | Ear => Drops
    case Insulin | Ozempic => Injections
    case Tablet | Capsule => Pills
  }

  /** One prescription line: units per dose, doses per day and days. The
      first line of a tab also carries the tab's unit; lines added later do
      not. The values come from integer selects. */
  datatype PrescriptionDetails = PrescriptionDetails(dose: int, frequency: int, duration: int,
                                                     units: Option<string>)

  /** A pack (or strength) of a product: its size and unit. */
  datatype PackSize = PackSize(packSize: real, units: string)

  /** The state of the current tab. `rxType` is the source's `type`. */
  datatype Dosing = Dosing(activeTab: ActiveTab, rxType: Prescription,
                           prescriptionDetails: PrescriptionDetails, packSizes: seq<PackSize>)

  /** How many packs of one selected size cover the total dose. */
  datatype PackResult = PackResult(packSize: real, units: string, quantity: int)

  datatype Results = Results(totalDose: int, packsNeeded: seq<PackResult>)
}
