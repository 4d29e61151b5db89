/**
 * The shared table `dbo.LoadTracker`, keyed by DETAIL_LINE_ID. Each row has
 * a sync-owned part, written only by the CSV importer, and an
 * externally-owned part, written only by the web application's editing
 * layer (or by nothing in this repository at all).
 */
module Schema {
  import opened Wrappers

  /** A `DateTime` / SQL `DATETIME`, as its tick count (100 ns units since 0001-01-01). */
  type DateTime = nat

  const TicksPerDay: nat := 864_000_000_000

  /** `dt.Date`, as a day number. */
  function CalendarDay(t: DateTime): nat {
    t / TicksPerDay
  }

  /** The T-SQL literal '19000101' as a DATETIME: 693595 days after 0001-01-01. */
  const Jan1st1900: DateTime := 693_595 * TicksPerDay

  /** A `double` / SQL `FLOAT`, by its value (rounding is not modelled). */
  type Number = real

  /** The 27 columns the importer owns, besides DETAIL_LINE_ID. */
  datatype SyncCols = SyncCols(
    billNumber: Option<string>,        // BILL_NUMBER
    bolNo: Option<string>,             // [BOL #]
    orderNo: Option<string>,           // [ORDER #]
    destination: Option<string>,       // DESTINATION
    destName: Option<string>,          // DESTNAME
    destCity: Option<string>,          // DESTCITY
    destProv: Option<string>,          // DESTPROV
    customer: Option<string>,          // CUSTOMER
    callName: Option<string>,          // CALLNAME
    origin: Option<string>,            // ORIGIN
    origName: Option<string>,          // ORIGNAME
    origCity: Option<string>,          // ORIGCITY
    origProv: Option<string>,          // ORIGPROV
    pickUpBy: Option<DateTime>,        // PICK_UP_BY
    pickUpByEnd: Option<DateTime>,     // PICK_UP_BY_END
    deliverBy: Option<DateTime>,       // DELIVER_BY
    deliverByEnd: Option<DateTime>,    // DELIVER_BY_END
    currentStatus: Option<string>,     // CURRENT_STATUS
    pallets: Option<Number>,           // PALLETS
    cube: Option<Number>,              // CUBE
    weight: Option<Number>,            // WEIGHT
    cubeUnits: Option<string>,         // CUBE_UNITS
    weightUnits: Option<string>,       // WEIGHT_UNITS
    temperature: Option<Number>,       // TEMPERATURE
    temperatureUnits: Option<string>,  // TEMPERATURE_UNITS
    dangerousGoods: Option<string>,    // DANGEROUS_GOODS
    requestedEquipmen: Option<string>  // REQUESTED_EQUIPMEN
  )

  /** The columns the importer never writes. */
  datatype EditCols = EditCols(
    exception: bool,                   // EXCEPTION
    usrSfShortDesc: Option<string>,    // USR_SF_SHORT_DESC
    comments: Option<string>,          // COMMENTS
    actualPickup: Option<DateTime>,    // ACTUAL_PICKUP
    actualDelivery: Option<DateTime>,  // ACTUAL_DELIVERY
    sfShortDesc: Option<string>,       // SF_SHORT_DESC
    poNo: Option<string>               // [PO #]
  )

  datatype Row = Row(sync: SyncCols, edit: EditCols)

  /** `dbo.LoadTracker`: one row per DETAIL_LINE_ID. */
  class LoadTable {
    var rows: map<int, Row>
    /** What the table's schema gives the externally-owned columns of an inserted row. */
    const insertDefaults: EditCols

    constructor (initial: map<int, Row>, defaults: EditCols)
      ensures rows == initial && insertDefaults == defaults
    {
      rows := initial;
      insertDefaults := defaults;
    }
  }

  // ---------------------------------------------------------------------
  // Change detection: `ISNULL(t.c, d) <> ISNULL(s.c, d)` for every column

  function IsNullStr(v: Option<string>): string { v.GetOr("") }
  function IsNullDate(v: Option<DateTime>): DateTime { v.GetOr(Jan1st1900) }
  function IsNullNumber(v: Option<Number>): Number { v.GetOr(0.0) }

  /** Every column replaced by the value its ISNULL default gives it. */
  function Coalesced(c: SyncCols): SyncCols {
    SyncCols(
      Some(IsNullStr(c.billNumber)), Some(IsNullStr(c.bolNo)), Some(IsNullStr(c.orderNo)),
      Some(IsNullStr(c.destination)), Some(IsNullStr(c.destName)), Some(IsNullStr(c.destCity)),
      Some(IsNullStr(c.destProv)), Some(IsNullStr(c.customer)), Some(IsNullStr(c.callName)),
      Some(IsNullStr(c.origin)), Some(IsNullStr(c.origName)), Some(IsNullStr(c.origCity)),
      Some(IsNullStr(c.origProv)),
      Some(IsNullDate(c.pickUpBy)), Some(IsNullDate(c.pickUpByEnd)),
      Some(IsNullDate(c.deliverBy)), Some(IsNullDate(c.deliverByEnd)),
      Some(IsNullStr(c.currentStatus)),
      Some(IsNullNumber(c.pallets)), Some(IsNullNumber(c.cube)), Some(IsNullNumber(c.weight)),
      Some(IsNullStr(c.cubeUnits)), Some(IsNullStr(c.weightUnits)),
      Some(IsNullNumber(c.temperature)), Some(IsNullStr(c.temperatureUnits)),
      Some(IsNullStr(c.dangerousGoods)), Some(IsNullStr(c.requestedEquipmen)))
  }

  /**
   * The WHERE clause of the importer's UPDATE: some sync-owned column of
   * the persisted row `t` differs from the staged row `s` once nulls are
   * replaced by '', 0 and 1900-01-01. Equivalently: the two rows are
   * different after coalescing.
   */
  predicate Changed(t: SyncCols, s: SyncCols)
    ensures Changed(t, s) <==> Coalesced(t) != Coalesced(s)
  {
    || IsNullStr(t.billNumber) != IsNullStr(s.billNumber)
    || IsNullStr(t.bolNo) != IsNullStr(s.bolNo)
    || IsNullStr(t.orderNo) != IsNullStr(s.orderNo)
    || IsNullStr(t.destination) != IsNullStr(s.destination)
    || IsNullStr(t.destName) != IsNullStr(s.destName)
    || IsNullStr(t.destCity) != IsNullStr(s.destCity)
    || IsNullStr(t.destProv) != IsNullStr(s.destProv)
    || IsNullStr(t.customer) != IsNullStr(s.customer)
    || IsNullStr(t.callName) != IsNullStr(s.callName)
    || IsNullStr(t.origin) != IsNullStr(s.origin)
    || IsNullStr(t.origName) != IsNullStr(s.origName)
    || IsNullStr(t.origCity) != IsNullStr(s.origCity)
    || IsNullStr(t.origProv) != IsNullStr(s.origProv)
    || IsNullDate(t.pickUpBy) != IsNullDate(s.pickUpBy)
    || IsNullDate(t.pickUpByEnd) != IsNullDate(s.pickUpByEnd)
    || IsNullDate(t.deliverBy) != IsNullDate(s.deliverBy)
    || IsNullDate(t.deliverByEnd) != IsNullDate(s.deliverByEnd)
    || IsNullStr(t.currentStatus) != IsNullStr(s.currentStatus)
    || IsNullNumber(t.pallets) != IsNullNumber(s.pallets)
    || IsNullNumber(t.cube) != IsNullNumber(s.cube)
    || IsNullNumber(t.weight) != IsNullNumber(s.weight)
    || IsNullStr(t.cubeUnits) != IsNullStr(s.cubeUnits)
    || IsNullStr(t.weightUnits) != IsNullStr(s.weightUnits)
    || IsNullNumber(t.temperature) != IsNullNumber(s.temperature)
    || IsNullStr(t.temperatureUnits) != IsNullStr(s.temperatureUnits)
    || IsNullStr(t.dangerousGoods) != IsNullStr(s.dangerousGoods)
    || IsNullStr(t.requestedEquipmen) != IsNullStr(s.requestedEquipmen)
  }

  /** Identical rows are never a change, and "no change" is symmetric. */
  lemma ChangedIsADifference(t: SyncCols, s: SyncCols)
    ensures Changed(t, s) ==> t != s
    ensures Changed(t, s) <==> Changed(s, t)
  {
  }

  /**
   * The coalescing hides some transitions: a persisted NULL PALLETS and a
   * staged 0 compare equal, so such a row is not rewritten.
   */
  lemma NullAndZeroPalletsAreNoChange(t: SyncCols)
    requires t.pallets == None
    ensures !Changed(t, t.(pallets := Some(0.0)))
  {
  }

  /** A NULL date and the date 1900-01-01 compare equal in the same way. */
  lemma NullAndEpochDateAreNoChange(t: SyncCols)
    requires t.deliverBy == None
    ensures !Changed(t, t.(deliverBy := Some(Jan1st1900)))
  {
  }
}
