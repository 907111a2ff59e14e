/** The operator dashboard's spot record, with the closed status set its
    type declares. */
module DashboardTypes {
  import opened Wrappers

  datatype SpotStatus = Available | Occupied | Reserved | Maintenance

  /** A dashboard spot. `occupiedUntil` is the end instant in epoch
      milliseconds, absent when the record has none; the user fields and
      the price are display-only and not modelled. */
  datatype DashSpot = DashSpot(
    id: string, locationId: string, spotNumber: string, zone: string,
    status: SpotStatus, occupiedUntil: Option<int>, isAccessible: bool)
}
