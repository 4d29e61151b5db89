/**
 * `LoadTrackerRepository`: the web application's reads and its one write
 * on `dbo.LoadTracker`. The month query selects a customer's loads by the
 * pickup date shown on screen and orders them by that date and the id;
 * each row becomes a view model with derived texts; the edit writes three
 * externally-owned columns of one row of the caller's customer.
 */
module Repository {
  import opened Wrappers
  import opened Text
  import opened Schema
  import opened Ordering

  /** The date patterns the view uses, as functions of the instant. */
  datatype Formats = Formats(
    dateTime: DateTime -> string,  // "yyyy-MM-dd HH:mm"
    date: DateTime -> string,      // "yyyy-MM-dd"
    clock: DateTime -> string      // "HH:mm"
  )

  /** The widths the three patterns always produce. */
  ghost predicate FixedWidth(f: Formats) {
    forall t :: |f.dateTime(t)| == 16 && |f.date(t)| == 10 && |f.clock(t)| == 5
  }

  /** U+2013 EN DASH, which separates the two ends of a delivery window. */
  const EnDash: char := '\U{2013}'

  // ---------------------------------------------------------------------
  // Derived texts

  /**
   * `ComputeOnTime`: no verdict without an actual time or a window start;
   * with both ends, on time means inside the closed window; with only the
   * start, on time means no later than the start.
   */
  function ComputeOnTime(actual: Option<DateTime>, windowStart: Option<DateTime>, windowEnd: Option<DateTime>): (r: string)
    ensures r == "" || r == "YES" || r == "NO"
    ensures r == "" <==> actual.None? || windowStart.None?
    ensures actual.Some? && windowStart.Some? && windowEnd.Some? ==>
              (r == "YES" <==> windowStart.value <= actual.value <= windowEnd.value)
    ensures actual.Some? && windowStart.Some? && windowEnd.None? ==>
              (r == "YES" <==> actual.value <= windowStart.value)
  {
    if actual.None? then ""
    else if windowStart.Some? && windowEnd.Some? then
      if windowStart.value <= actual.value <= windowEnd.value then "YES" else "NO"
    else if windowStart.Some? && windowEnd.None? then
      if actual.value <= windowStart.value then "YES" else "NO"
    else ""
  }

  /**
   * `BuildRadText`: the delivery window as text. Two ends on the same
   * calendar day share the date (`start–HH:mm`); otherwise both are written
   * in full; a single end is written alone; no ends give "".
   */
  function BuildRadText(start: Option<DateTime>, end: Option<DateTime>, f: Formats): string {
    if start.None? && end.None? then ""
    else if start.Some? && end.Some? then
      if CalendarDay(start.value) == CalendarDay(end.value) then f.dateTime(start.value) + [EnDash] + f.clock(end.value)
      else f.dateTime(start.value) + " " + [EnDash] + " " + f.dateTime(end.value)
    else if start.Some? then f.dateTime(start.value)
    else f.dateTime(end.value)
  }

  /**
   * With the patterns' fixed widths the text's length tells its form: 0
   * for no window, 16 for one end, 22 for a same-day window, 35 for a
   * window across days. So the text is empty exactly when both ends are
   * null, and the compact form is used exactly for same-day windows; a
   * single end is written alone.
   */
  lemma RadTextForm(start: Option<DateTime>, end: Option<DateTime>, f: Formats)
    requires FixedWidth(f)
    ensures var n := |BuildRadText(start, end, f)|;
      && (n == 0 <==> start.None? && end.None?)
      && (n == 16 <==> start.Some? != end.Some?)
      && (n == 22 <==> start.Some? && end.Some? && CalendarDay(start.value) == CalendarDay(end.value))
      && (n == 35 <==> start.Some? && end.Some? && CalendarDay(start.value) != CalendarDay(end.value))
    ensures start.Some? && end.None? ==> BuildRadText(start, end, f) == f.dateTime(start.value)
    ensures start.None? && end.Some? ==> BuildRadText(start, end, f) == f.dateTime(end.value)
  {
    if start.Some? {
      assert |f.dateTime(start.value)| == 16;
    }
    if end.Some? {
      assert |f.dateTime(end.value)| == 16 && |f.clock(end.value)| == 5;
    }
  }

  /** The compact form starts with the start's full text and ends with the end's clock time. */
  lemma RadTextSameDay(s: DateTime, e: DateTime, f: Formats)
    requires CalendarDay(s) == CalendarDay(e)
    ensures var r := BuildRadText(Some(s), Some(e), f);
      && r[..|f.dateTime(s)|] == f.dateTime(s)
      && r[|f.dateTime(s)|] == EnDash
      && r[|f.dateTime(s)| + 1..] == f.clock(e)
  {
  }

  /** The user's delay reason wins over the feed's unless it is blank. */
  function NonCarrierDelay(usrSfShortDesc: Option<string>, sfShortDesc: Option<string>): (r: Option<string>)
    ensures !IsNullOrWhiteSpace(usrSfShortDesc) ==> r == usrSfShortDesc
    ensures IsNullOrWhiteSpace(usrSfShortDesc) ==> r == sfShortDesc
  {
    if !IsNullOrWhiteSpace(usrSfShortDesc) then usrSfShortDesc else sfShortDesc
  }

  /** The delay shown is blank only when both reasons are. */
  lemma NonCarrierDelayBlank(usr: Option<string>, sf: Option<string>)
    ensures IsNullOrWhiteSpace(NonCarrierDelay(usr, sf)) <==> IsNullOrWhiteSpace(usr) && IsNullOrWhiteSpace(sf)
  {
  }

  /** `ACTUAL_PICKUP ?? PICK_UP_BY`: the pickup shown on screen. */
  function PickupForDisplay(r: Row): (t: Option<DateTime>)
    ensures t.None? <==> r.edit.actualPickup.None? && r.sync.pickUpBy.None?
    ensures r.edit.actualPickup.Some? ==> t == r.edit.actualPickup
    ensures r.edit.actualPickup.None? ==> t == r.sync.pickUpBy
  {
    if r.edit.actualPickup.Some? then r.edit.actualPickup else r.sync.pickUpBy
  }

  // ---------------------------------------------------------------------
  // The month query

  /**
   * The WHERE clause of the month query: the row's customer is the code,
   * and the actual pickup, or the planned pickup when there is no actual
   * one, lies in [start, end).
   */
  predicate InMonth(r: Row, customerCode: string, start: DateTime, end: DateTime) {
    && r.sync.customer == Some(customerCode)
    && (|| (r.edit.actualPickup.Some? && start <= r.edit.actualPickup.value < end)
        || (r.edit.actualPickup.None? && r.sync.pickUpBy.Some? && start <= r.sync.pickUpBy.value < end))
  }

  /** A row is selected exactly when the pickup it shows lies in the month. */
  lemma InMonthByDisplayedPickup(r: Row, customerCode: string, start: DateTime, end: DateTime)
    ensures InMonth(r, customerCode, start, end) <==>
              && r.sync.customer == Some(customerCode)
              && PickupForDisplay(r).Some? && start <= PickupForDisplay(r).value < end
  {
  }

  /** The ids the month query selects. */
  ghost function MonthIds(rows: map<int, Row>, customerCode: string, start: DateTime, end: DateTime): set<int> {
    set id | id in rows && InMonth(rows[id], customerCode, start, end)
  }

  /** `COALESCE(ACTUAL_PICKUP, PICK_UP_BY)` as an ordering key; -1 never occurs for a selected row. */
  function PickupKey(rows: map<int, Row>, id: int): int {
    if id in rows && PickupForDisplay(rows[id]).Some? then PickupForDisplay(rows[id]).value else -1
  }

  /** `ORDER BY COALESCE(ACTUAL_PICKUP, PICK_UP_BY), DETAIL_LINE_ID`. */
  predicate LoadLe(rows: map<int, Row>, a: int, b: int) {
    PickupKey(rows, a) < PickupKey(rows, b) || (PickupKey(rows, a) == PickupKey(rows, b) && a <= b)
  }

  /** The id breaks every tie, so the order is total and no two rows tie. */
  lemma LoadOrderIsTotal(rows: map<int, Row>, s: set<int>)
    ensures var le := (a, b) => LoadLe(rows, a, b);
      TotalOn(s, le) && TransitiveOn(s, le) && AntisymmetricOn(s, le)
  {
  }

  /** The ids the month query returns, in the order it returns them. */
  ghost predicate IsMonthQuery(rows: map<int, Row>, customerCode: string, start: DateTime, end: DateTime, ids: seq<int>) {
    Enumerates(ids, MonthIds(rows, customerCode, start, end)) && SortedBy(ids, (a, b) => LoadLe(rows, a, b))
  }

  /** For every table the month query has a result, and only one. */
  lemma MonthQueryDetermined(rows: map<int, Row>, customerCode: string, start: DateTime, end: DateTime, ids: seq<int>)
    ensures exists r :: IsMonthQuery(rows, customerCode, start, end, r)
    ensures IsMonthQuery(rows, customerCode, start, end, ids) ==>
              forall r :: IsMonthQuery(rows, customerCode, start, end, r) ==> r == ids
  {
    var s := MonthIds(rows, customerCode, start, end);
    var le := (a, b) => LoadLe(rows, a, b);
    LoadOrderIsTotal(rows, s);
    var r := SortedEnumerationExists(s, le);
    assert IsMonthQuery(rows, customerCode, start, end, r);
    if IsMonthQuery(rows, customerCode, start, end, ids) {
      forall r' | IsMonthQuery(rows, customerCode, start, end, r')
        ensures r' == ids
      {
        SortedEnumerationUnique(r', ids, s, le);
      }
    }
  }

  // ---------------------------------------------------------------------
  // The row mapping

  /** `LoadRowViewModel`. */
  datatype LoadRowView = LoadRowView(
    detailLineId: int,
    probill: Option<string>,
    bolNo: Option<string>,
    orderNo: Option<string>,
    poNo: Option<string>,
    receiver: Option<string>,
    receiverCity: Option<string>,
    receiverProv: Option<string>,
    actualPickup: Option<DateTime>,
    deliverBy: Option<DateTime>,
    deliverByEnd: Option<DateTime>,
    radText: string,
    currentStatus: Option<string>,
    actualDelivery: Option<DateTime>,
    deliveryDateText: Option<string>,
    deliveryTimeText: Option<string>,
    exception: bool,
    onTimeText: string,
    nonCarrierDelay: Option<string>,
    userNonCarrierDelay: Option<string>,
    comments: Option<string>
  )

  /** The body of the `foreach` in `GetLoadsForMonthAsync`: one queried row as a view model. */
  function ToView(id: int, r: Row, f: Formats): LoadRowView {
    var delivered := r.edit.actualDelivery;
    LoadRowView(
      id,
      r.sync.billNumber, r.sync.bolNo, r.sync.orderNo, r.edit.poNo,
      r.sync.destName, r.sync.destCity, r.sync.destProv,
      PickupForDisplay(r),
      r.sync.deliverBy, r.sync.deliverByEnd,
      BuildRadText(r.sync.deliverBy, r.sync.deliverByEnd, f),
      r.sync.currentStatus,
      delivered,
      if delivered.Some? then Some(f.date(delivered.value)) else None,
      if delivered.Some? then Some(f.clock(delivered.value)) else None,
      r.edit.exception,
      ComputeOnTime(delivered, r.sync.deliverBy, r.sync.deliverByEnd),
      NonCarrierDelay(r.edit.usrSfShortDesc, r.edit.sfShortDesc),
      r.edit.usrSfShortDesc,
      r.edit.comments)
  }

  /**
   * `GetLoadsForMonthAsync`: `queried` is what SQL Server returns for the
   * month query; each returned row becomes one view model, in that order.
   */
  method GetLoadsForMonth(db: LoadTable, customerCode: string, start: DateTime, end: DateTime, f: Formats,
                          queried: seq<int>)
    returns (list: seq<LoadRowView>)
    requires IsMonthQuery(db.rows, customerCode, start, end, queried)
    ensures |list| == |queried|
    ensures forall i :: 0 <= i < |list| ==> queried[i] in db.rows && list[i] == ToView(queried[i], db.rows[queried[i]], f)
  {
    list := [];
    for i := 0 to |queried|
      invariant |list| == i
      invariant forall j :: 0 <= j < i ==> queried[j] in db.rows && list[j] == ToView(queried[j], db.rows[queried[j]], f)
    {
      assert queried[i] in MonthIds(db.rows, customerCode, start, end);
      var id := queried[i];
      list := list + [ToView(id, db.rows[id], f)];
    }
  }

  /**
   * What the page shows: one view per selected load, each once, every
   * shown pickup inside the month, ordered by shown pickup and then id,
   * with no two views tied.
   */
  lemma MonthViewsInOrder(rows: map<int, Row>, customerCode: string, start: DateTime, end: DateTime,
                          f: Formats, queried: seq<int>, list: seq<LoadRowView>)
    requires IsMonthQuery(rows, customerCode, start, end, queried)
    requires |list| == |queried|
    requires forall i :: 0 <= i < |list| ==> queried[i] in rows && list[i] == ToView(queried[i], rows[queried[i]], f)
    ensures forall i :: 0 <= i < |list| ==>
              && list[i].actualPickup.Some? && start <= list[i].actualPickup.value < end
              && list[i].detailLineId in rows && rows[list[i].detailLineId].sync.customer == Some(customerCode)
    ensures forall i, j :: 0 <= i < j < |list| ==>
              || list[i].actualPickup.value < list[j].actualPickup.value
              || (list[i].actualPickup.value == list[j].actualPickup.value && list[i].detailLineId < list[j].detailLineId)
    ensures forall id :: id in MonthIds(rows, customerCode, start, end) <==>
              exists i :: 0 <= i < |list| && list[i].detailLineId == id
  {
    forall i | 0 <= i < |list|
      ensures list[i].actualPickup.Some? && start <= list[i].actualPickup.value < end
      ensures list[i].detailLineId in rows && rows[list[i].detailLineId].sync.customer == Some(customerCode)
    {
      assert queried[i] in MonthIds(rows, customerCode, start, end);
      InMonthByDisplayedPickup(rows[queried[i]], customerCode, start, end);
    }
    forall i, j | 0 <= i < j < |list|
      ensures || list[i].actualPickup.value < list[j].actualPickup.value
              || (list[i].actualPickup.value == list[j].actualPickup.value && list[i].detailLineId < list[j].detailLineId)
    {
      assert LoadLe(rows, queried[i], queried[j]);
      assert queried[i] != queried[j];
    }
    forall id
      ensures id in MonthIds(rows, customerCode, start, end) <==>
              exists i :: 0 <= i < |list| && list[i].detailLineId == id
    {
      if id in MonthIds(rows, customerCode, start, end) {
        var i :| 0 <= i < |queried| && queried[i] == id;
        assert list[i].detailLineId == id;
      }
    }
  }

  // ---------------------------------------------------------------------
  // The edit

  /** The arguments of `UpdateEditableFieldsAsync`. */
  datatype Edit = Edit(customerCode: string, detailLineId: int, exception: bool,
                       userDelay: Option<string>, comments: Option<string>)

  /** The rows the edit's WHERE clause matches: the id, and the caller's customer. */
  function EditTargets(rows: map<int, Row>, e: Edit): set<int> {
    set id | id in rows && id == e.detailLineId && rows[id].sync.customer == Some(e.customerCode)
  }

  /** The row's externally-owned columns after the edit's SET clause. */
  function EditedCols(c: EditCols, e: Edit): EditCols {
    c.(exception := e.exception, usrSfShortDesc := NullIfBlank(e.userDelay), comments := NullIfBlank(e.comments))
  }

  /** The table after the edit's UPDATE. */
  function ApplyEdit(rows: map<int, Row>, e: Edit): map<int, Row> {
    map id | id in rows :: if id in EditTargets(rows, e) then Row(rows[id].sync, EditedCols(rows[id].edit, e)) else rows[id]
  }

  /** At most one row matches, and one does exactly when the id exists with the caller's customer. */
  lemma EditTargetsOne(rows: map<int, Row>, e: Edit)
    ensures EditTargets(rows, e) <= {e.detailLineId}
    ensures |EditTargets(rows, e)| == 1 <==>
              e.detailLineId in rows && rows[e.detailLineId].sync.customer == Some(e.customerCode)
  {
    if e.detailLineId in rows && rows[e.detailLineId].sync.customer == Some(e.customerCode) {
      assert EditTargets(rows, e) == {e.detailLineId};
    } else {
      assert EditTargets(rows, e) == {};
    }
  }

  /**
   * The edit writes only EXCEPTION, USR_SF_SHORT_DESC and COMMENTS, only
   * on the matched row, and stores the two texts normalised.
   */
  lemma EditWritesThreeColumns(rows: map<int, Row>, e: Edit)
    ensures var after := ApplyEdit(rows, e);
      && after.Keys == rows.Keys
      && (forall id :: id in rows ==> after[id].sync == rows[id].sync)
      && (forall id :: id in rows ==>
            && after[id].edit.actualPickup == rows[id].edit.actualPickup
            && after[id].edit.actualDelivery == rows[id].edit.actualDelivery
            && after[id].edit.sfShortDesc == rows[id].edit.sfShortDesc
            && after[id].edit.poNo == rows[id].edit.poNo)
      && (forall id :: id in rows && id !in EditTargets(rows, e) ==> after[id] == rows[id])
      && (forall id :: id in EditTargets(rows, e) ==>
            && after[id].edit.exception == e.exception
            && after[id].edit.usrSfShortDesc == NullIfBlank(e.userDelay)
            && after[id].edit.comments == NullIfBlank(e.comments)
            && IsTrimmedOrNull(after[id].edit.usrSfShortDesc) && IsTrimmedOrNull(after[id].edit.comments))
  {
  }

  /** Repeating an edit changes nothing more. */
  lemma EditIdempotent(rows: map<int, Row>, e: Edit)
    ensures ApplyEdit(ApplyEdit(rows, e), e) == ApplyEdit(rows, e)
  {
    var once := ApplyEdit(rows, e);
    assert EditTargets(once, e) == EditTargets(rows, e);
  }

  /**
   * `UpdateEditableFieldsAsync`: normalises the two texts, runs the
   * UPDATE, and reports success exactly when one row was affected.
   */
  method UpdateEditableFields(db: LoadTable, e: Edit) returns (ok: bool)
    modifies db
    ensures db.rows == ApplyEdit(old(db.rows), e)
    ensures ok <==> |EditTargets(old(db.rows), e)| == 1
  {
    var affected := |EditTargets(db.rows, e)|;
    db.rows := ApplyEdit(db.rows, e);
    ok := affected == 1;
  }

  // ---------------------------------------------------------------------
  // The customer list

  /** T-SQL `LTRIM(RTRIM(s))`: only spaces are removed. */
  function SqlTrim(s: string): (r: string)
    ensures r == [] || (r[0] != ' ' && r[|r| - 1] != ' ')
  {
    TrimWhere(s, IsSpace)
  }

  predicate IsSpace(c: char) {
    c == ' '
  }

  /** The codes the customer query groups by: trimmed, non-blank CUSTOMER values. */
  ghost function CustomerCodes(rows: map<int, Row>): set<string> {
    set id | id in rows && rows[id].sync.customer.Some? && SqlTrim(rows[id].sync.customer.value) != []
      :: SqlTrim(rows[id].sync.customer.value)
  }

  /** The trimmed, non-null CALLNAME values of the rows of one group. */
  ghost function CallNames(rows: map<int, Row>, code: string): set<string> {
    set id | id in rows && rows[id].sync.customer.Some? && SqlTrim(rows[id].sync.customer.value) == code
                        && rows[id].sync.callName.Some?
      :: SqlTrim(rows[id].sync.callName.value)
  }

  /** T-SQL `MAX` over strings: NULL for no values, else the greatest. */
  ghost function MaxName(names: set<string>): (r: Option<string>)
    ensures r.None? <==> names == {}
    ensures r.Some? ==> r.value in names && forall x :: x in names ==> StrLe(x, r.value)
  {
    if names == {} then None else Some(GreatestStr(names))
  }

  /** The greatest element of a non-empty set of strings. */
  ghost function GreatestStr(names: set<string>): (m: string)
    requires names != {}
    ensures m in names && forall x :: x in names ==> StrLe(x, m)
  {
    assert exists m :: m in names && forall x :: x in names ==> StrLe(x, m) by {
      StrLeOrdersAll(names);
      var g := GreatestExists(names, StrLe);
    }
    var m :| m in names && forall x :: x in names ==> StrLe(x, m);
    m
  }

  /** The call name shown for a customer code: `MAX(LTRIM(RTRIM(CALLNAME)))` of its group. */
  ghost function CallNameOf(rows: map<int, Row>, code: string): Option<string> {
    MaxName(CallNames(rows, code))
  }

  /** `ORDER BY` on a nullable string: NULL first, then the ordinal order. */
  predicate NameLe(a: Option<string>, b: Option<string>) {
    a.None? || (b.Some? && StrLe(a.value, b.value))
  }

  datatype CustomerEntry = CustomerEntry(code: string, callName: Option<string>)

  /** The codes of a customer list, in its order. */
  function Codes(list: seq<CustomerEntry>): (cs: seq<string>)
    ensures |cs| == |list| && forall i :: 0 <= i < |list| ==> cs[i] == list[i].code
  {
    if list == [] then [] else Codes(list[..|list| - 1]) + [list[|list| - 1].code]
  }

  /**
   * A result of `GetCustomersAsync`: each code once, with its group's call
   * name, ordered by call name. Entries with equal names may come in any order.
   */
  ghost predicate IsCustomerList(rows: map<int, Row>, list: seq<CustomerEntry>) {
    && Enumerates(Codes(list), CustomerCodes(rows))
    && (forall i :: 0 <= i < |list| ==> list[i].callName == CallNameOf(rows, list[i].code))
    && (forall i, j :: 0 <= i < j < |list| ==> NameLe(list[i].callName, list[j].callName))
  }

  /** The order by call name is a total preorder on every set of codes. */
  lemma CustomerOrderIsTotal(rows: map<int, Row>, s: set<string>)
    ensures var le := (a, b) => NameLe(CallNameOf(rows, a), CallNameOf(rows, b));
      TotalOn(s, le) && TransitiveOn(s, le)
  {
    forall a, b | a in s && b in s
      ensures NameLe(CallNameOf(rows, a), CallNameOf(rows, b)) || NameLe(CallNameOf(rows, b), CallNameOf(rows, a))
    {
      var x, y := CallNameOf(rows, a), CallNameOf(rows, b);
      if x.Some? && y.Some? {
        StrLeTotal(x.value, y.value);
      }
    }
    forall a, b, c | a in s && b in s && c in s
                     && NameLe(CallNameOf(rows, a), CallNameOf(rows, b)) && NameLe(CallNameOf(rows, b), CallNameOf(rows, c))
      ensures NameLe(CallNameOf(rows, a), CallNameOf(rows, c))
    {
      var x, y, z := CallNameOf(rows, a), CallNameOf(rows, b), CallNameOf(rows, c);
      if x.Some? {
        StrLeTransitive(x.value, y.value, z.value);
      }
    }
  }

  /** Every table has a customer list. */
  lemma CustomerListExists(rows: map<int, Row>) returns (list: seq<CustomerEntry>)
    ensures IsCustomerList(rows, list)
  {
    var s := CustomerCodes(rows);
    var le := (a, b) => NameLe(CallNameOf(rows, a), CallNameOf(rows, b));
    CustomerOrderIsTotal(rows, s);
    var codes := SortedEnumerationExists(s, le);
    list := seq(|codes|, i requires 0 <= i < |codes| => CustomerEntry(codes[i], CallNameOf(rows, codes[i])));
    assert Codes(list) == codes;
  }

  /**
   * What a customer list says about the table: every code is a trimmed,
   * non-empty CUSTOMER value of some row, and every row with such a value
   * has its code listed; a listed call name is one of the group's
   * trimmed call names and no other is greater.
   */
  lemma CustomerListEntries(rows: map<int, Row>, list: seq<CustomerEntry>)
    requires IsCustomerList(rows, list)
    ensures forall i :: 0 <= i < |list| ==>
              && list[i].code != [] && list[i].code[0] != ' ' && list[i].code[|list[i].code| - 1] != ' '
              && exists id :: id in rows && rows[id].sync.customer.Some? && SqlTrim(rows[id].sync.customer.value) == list[i].code
    ensures forall id :: id in rows && rows[id].sync.customer.Some? && SqlTrim(rows[id].sync.customer.value) != [] ==>
              exists i :: 0 <= i < |list| && list[i].code == SqlTrim(rows[id].sync.customer.value)
    ensures forall i :: 0 <= i < |list| && list[i].callName.Some? ==>
              && list[i].callName.value in CallNames(rows, list[i].code)
              && forall n :: n in CallNames(rows, list[i].code) ==> StrLe(n, list[i].callName.value)
  {
    forall i | 0 <= i < |list|
      ensures list[i].code != [] && list[i].code[0] != ' ' && list[i].code[|list[i].code| - 1] != ' '
      ensures exists id :: id in rows && rows[id].sync.customer.Some? && SqlTrim(rows[id].sync.customer.value) == list[i].code
    {
      ListedCodeIsCustomer(rows, list, i);
    }
    forall id | id in rows && rows[id].sync.customer.Some? && SqlTrim(rows[id].sync.customer.value) != []
      ensures exists i :: 0 <= i < |list| && list[i].code == SqlTrim(rows[id].sync.customer.value)
    {
      CustomerIsListed(rows, list, id);
    }
  }

  /** One listed code comes from the CUSTOMER value of some row. */
  lemma ListedCodeIsCustomer(rows: map<int, Row>, list: seq<CustomerEntry>, i: int)
    requires IsCustomerList(rows, list) && 0 <= i < |list|
    ensures list[i].code != [] && list[i].code[0] != ' ' && list[i].code[|list[i].code| - 1] != ' '
    ensures exists id :: id in rows && rows[id].sync.customer.Some? && SqlTrim(rows[id].sync.customer.value) == list[i].code
  {
    var codes := Codes(list);
    assert codes[i] in codes;
    var c := list[i].code;
    assert c in CustomerCodes(rows);
    var id :| id in rows && rows[id].sync.customer.Some? && SqlTrim(rows[id].sync.customer.value) != []
              && SqlTrim(rows[id].sync.customer.value) == c;
  }

  /** The code of one row with a non-blank CUSTOMER is listed. */
  lemma CustomerIsListed(rows: map<int, Row>, list: seq<CustomerEntry>, id: int)
    requires IsCustomerList(rows, list)
    requires id in rows && rows[id].sync.customer.Some? && SqlTrim(rows[id].sync.customer.value) != []
    ensures exists i :: 0 <= i < |list| && list[i].code == SqlTrim(rows[id].sync.customer.value)
  {
    var c := SqlTrim(rows[id].sync.customer.value);
    assert c in CustomerCodes(rows);
    var codes := Codes(list);
    var i :| 0 <= i < |codes| && codes[i] == c;
    assert list[i].code == c;
  }

  // ---------------------------------------------------------------------
  // The customer name

  /** The rows whose CUSTOMER is exactly the code. */
  ghost function CustomerRows(rows: map<int, Row>, code: string): set<int> {
    set id | id in rows && rows[id].sync.customer == Some(code)
  }

  /**
   * `GetCustomerNameAsync`: the first CALLNAME of the code's rows in
   * ascending order, NULL sorting first; null when the code has no rows.
   */
  ghost function CustomerName(rows: map<int, Row>, code: string): (r: Option<string>)
    ensures r.None? <==> CustomerRows(rows, code) == {}
                         || exists id :: id in CustomerRows(rows, code) && rows[id].sync.callName.None?
    ensures r.Some? ==>
              && (exists id :: id in CustomerRows(rows, code) && rows[id].sync.callName == r)
              && forall id :: id in CustomerRows(rows, code) ==> StrLe(r.value, rows[id].sync.callName.value)
  {
    var ids := CustomerRows(rows, code);
    if ids == {} || exists id :: id in ids && rows[id].sync.callName.None? then None
    else
      var names := set id | id in ids :: rows[id].sync.callName.value;
      LeastCallNameExists(rows, ids);
      var least :| least in names && forall x :: x in names ==> StrLe(least, x);
      Some(least)
  }

  /** A non-empty set of rows that all have a call name has a least one. */
  lemma LeastCallNameExists(rows: map<int, Row>, ids: set<int>)
    requires ids != {}
    requires forall id :: id in ids ==> id in rows && rows[id].sync.callName.Some?
    ensures var names := set id | id in ids :: rows[id].sync.callName.value;
      exists m :: m in names && forall x :: x in names ==> StrLe(m, x)
  {
    var id0 := Pick(ids);
    var names := set id | id in ids :: rows[id].sync.callName.value;
    assert rows[id0].sync.callName.value in names;
    var m := LeastStrExists(names);
  }
}
