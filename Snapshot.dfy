/**
 * `ReadCsvToDataTable`: the CSV records, in file order, are collapsed by
 * DETAIL_LINE_ID (the later record wins wholesale, records whose id does not
 * parse are dropped) and each survivor becomes one row of the staging
 * `DataTable`; `SqlBulkCopy` then turns that table into `#staging`.
 */
module Snapshot {
  import opened Wrappers
  import opened Text
  import opened Schema
  import opened Coercion

  /** One CSV record as CsvHelper hands it over: every field optional text. */
  datatype CsvRecord = CsvRecord(
    detailLineId: Option<string>,
    billNumber: Option<string>,
    bolNo: Option<string>,
    orderNo: Option<string>,
    poNo: Option<string>,
    destination: Option<string>,
    destName: Option<string>,
    destCity: Option<string>,
    destProv: Option<string>,
    customer: Option<string>,
    callName: Option<string>,
    origin: Option<string>,
    origName: Option<string>,
    origCity: Option<string>,
    origProv: Option<string>,
    pickUpBy: Option<string>,
    pickUpByEnd: Option<string>,
    deliverBy: Option<string>,
    deliverByEnd: Option<string>,
    actualDelivery: Option<string>,
    actualPickup: Option<string>,
    currentStatus: Option<string>,
    pallets: Option<string>,
    cube: Option<string>,
    weight: Option<string>,
    cubeUnits: Option<string>,
    weightUnits: Option<string>,
    temperature: Option<string>,
    temperatureUnits: Option<string>,
    dangerousGoods: Option<string>,
    requestedEquipmen: Option<string>,
    sfShortDesc: Option<string>
  )

  /** One row of the staging `DataTable`. */
  datatype StagedRow = StagedRow(id: int, cols: SyncCols)

  /** Every text column of `c` is null or trimmed non-empty text, as `DbStr` yields. */
  predicate TextNormalised(c: SyncCols) {
    && IsTrimmedOrNull(c.billNumber) && IsTrimmedOrNull(c.bolNo) && IsTrimmedOrNull(c.orderNo)
    && IsTrimmedOrNull(c.destination) && IsTrimmedOrNull(c.destName) && IsTrimmedOrNull(c.destCity)
    && IsTrimmedOrNull(c.destProv) && IsTrimmedOrNull(c.customer) && IsTrimmedOrNull(c.callName)
    && IsTrimmedOrNull(c.origin) && IsTrimmedOrNull(c.origName) && IsTrimmedOrNull(c.origCity)
    && IsTrimmedOrNull(c.origProv) && IsTrimmedOrNull(c.currentStatus) && IsTrimmedOrNull(c.cubeUnits)
    && IsTrimmedOrNull(c.weightUnits) && IsTrimmedOrNull(c.temperatureUnits)
    && IsTrimmedOrNull(c.dangerousGoods) && IsTrimmedOrNull(c.requestedEquipmen)
  }

  /**
   * The body of the second loop of `ReadCsvToDataTable`: the 27 sync-owned
   * columns of a record.
   */
  function BuildCols(r: CsvRecord, p: Parsers): SyncCols {
    SyncCols(
      NullIfBlank(r.billNumber), NullIfBlank(r.bolNo), NullIfBlank(r.orderNo),
      NullIfBlank(r.destination), NullIfBlank(r.destName), NullIfBlank(r.destCity),
      NullIfBlank(r.destProv),
      NullIfBlank(r.customer), NullIfBlank(r.callName),
      NullIfBlank(r.origin), NullIfBlank(r.origName), NullIfBlank(r.origCity),
      NullIfBlank(r.origProv),
      DbDt(r.pickUpBy, p), DbDt(r.pickUpByEnd, p), DbDt(r.deliverBy, p), DbDt(r.deliverByEnd, p),
      NullIfBlank(r.currentStatus),
      DbDbl(r.pallets, p), DbDbl(r.cube, p), DbDbl(r.weight, p),
      NullIfBlank(r.cubeUnits), NullIfBlank(r.weightUnits),
      DbDbl(r.temperature, p), NullIfBlank(r.temperatureUnits),
      NullIfBlank(r.dangerousGoods), NullIfBlank(r.requestedEquipmen))
  }

  /** The text columns of a staged row are always null or trimmed non-empty text. */
  lemma BuildColsNormalised(r: CsvRecord, p: Parsers)
    ensures TextNormalised(BuildCols(r, p))
  {
  }

  /**
   * The CSV fields PO #, ACTUAL_DELIVERY, ACTUAL_PICKUP and SF_SHORT_DESC
   * are read but never staged: whatever they hold, the staged row is the same.
   */
  lemma BuildColsIgnoresUnownedFields(r: CsvRecord, p: Parsers,
                                      po: Option<string>, delivered: Option<string>,
                                      picked: Option<string>, sf: Option<string>)
    ensures BuildCols(r.(poNo := po, actualDelivery := delivered,
                         actualPickup := picked, sfShortDesc := sf), p)
         == BuildCols(r, p)
  {
  }

  /** For normalised text, `ISNULL(a,'') = ISNULL(b,'')` is exact equality. */
  lemma NormalisedTextComparesExactly(a: Option<string>, b: Option<string>)
    requires IsTrimmedOrNull(a) && IsTrimmedOrNull(b)
    ensures IsNullStr(a) == IsNullStr(b) <==> a == b
  {
  }

  // ---------------------------------------------------------------------
  // The first loop: Dictionary<int, LoadTrackerCsvRow> byId

  /** The id `TryInt` gives a record, if any. */
  function ParsedId(r: CsvRecord): Option<int> {
    TryInt(r.detailLineId)
  }

  /**
   * `byId` after the first loop of `ReadCsvToDataTable`, for any key
   * function: `byId[key] = rec` for each record whose key parses.
   */
  function LastByKey<T>(rs: seq<T>, key: T -> Option<int>): map<int, T> {
    if rs == [] then map[]
    else
      var byId := LastByKey(rs[..|rs| - 1], key);
      match key(rs[|rs| - 1])
      case None => byId
      case Some(id) => byId[id := rs[|rs| - 1]]
  }

  /** Element `i` is the last one in `rs` whose key is `id`. */
  predicate IsLastWithKey<T>(rs: seq<T>, key: T -> Option<int>, i: int, id: int) {
    && 0 <= i < |rs|
    && key(rs[i]) == Some(id)
    && forall j :: i < j < |rs| ==> key(rs[j]) != Some(id)
  }

  /**
   * Keep-last deduplication: an id is kept exactly when some element's key
   * is that id, and it is kept with the last such element.
   */
  lemma {:induction false} LastByKeyKeepsLast<T>(rs: seq<T>, key: T -> Option<int>, id: int)
    ensures id in LastByKey(rs, key) <==> exists i :: 0 <= i < |rs| && key(rs[i]) == Some(id)
    ensures id in LastByKey(rs, key) ==>
              exists i :: IsLastWithKey(rs, key, i, id) && LastByKey(rs, key)[id] == rs[i]
  {
    if rs != [] {
      var init, n := rs[..|rs| - 1], |rs| - 1;
      LastByKeyKeepsLast(init, key, id);
      forall i | 0 <= i < n
        ensures rs[i] == init[i]
      {
      }
      if key(rs[n]) == Some(id) {
        assert IsLastWithKey(rs, key, n, id);
      } else if id in LastByKey(rs, key) {
        var i :| IsLastWithKey(init, key, i, id) && LastByKey(init, key)[id] == init[i];
        assert IsLastWithKey(rs, key, i, id);
      }
    }
  }

  /** The keys of `byId`, in the order a `Dictionary` enumerates them: first insertion. */
  function FirstSeenKeys<T>(rs: seq<T>, key: T -> Option<int>): (ids: seq<int>)
    ensures forall i, j :: 0 <= i < j < |ids| ==> ids[i] != ids[j]
    ensures forall id :: id in ids <==> id in LastByKey(rs, key)
  {
    if rs == [] then []
    else
      var ids := FirstSeenKeys(rs[..|rs| - 1], key);
      match key(rs[|rs| - 1])
      case None => ids
      case Some(id) => if id in ids then ids else ids + [id]
  }

  /** One more element: what one iteration of the first loop does. */
  lemma KeyedSnoc<T>(rs: seq<T>, x: T, key: T -> Option<int>)
    ensures LastByKey(rs + [x], key)
         == match key(x) case None => LastByKey(rs, key) case Some(id) => LastByKey(rs, key)[id := x]
    ensures FirstSeenKeys(rs + [x], key)
         == match key(x)
            case None => FirstSeenKeys(rs, key)
            case Some(id) => if id in LastByKey(rs, key) then FirstSeenKeys(rs, key)
                             else FirstSeenKeys(rs, key) + [id]
  {
    assert (rs + [x])[..|rs|] == rs;
  }

  /** `byId` for the CSV records. */
  function LastById(rs: seq<CsvRecord>): map<int, CsvRecord> {
    LastByKey(rs, ParsedId)
  }

  /** The staged columns the CSV yields, by id. */
  function SnapshotOf(rs: seq<CsvRecord>, p: Parsers): map<int, SyncCols> {
    BuildAll(LastById(rs), Builder(p))
  }

  /** `build` applied to every value of `byId`. */
  function BuildAll<T>(byId: map<int, T>, build: T -> SyncCols): map<int, SyncCols> {
    map id | id in byId :: build(byId[id])
  }

  /** The row builder of `ReadCsvToDataTable` for the given parsers. */
  function Builder(p: Parsers): CsvRecord -> SyncCols {
    r => BuildCols(r, p)
  }

  predicate DistinctIds(table: seq<StagedRow>) {
    forall i, j :: 0 <= i < j < |table| ==> table[i].id != table[j].id
  }

  /** `SqlBulkCopy` of the staging table into `#staging`, as a map by id. */
  function StagingOf(table: seq<StagedRow>): (staged: map<int, SyncCols>)
    requires DistinctIds(table)
    ensures forall k :: 0 <= k < |table| ==> table[k].id in staged && staged[table[k].id] == table[k].cols
    ensures forall id :: id in staged ==> exists k :: 0 <= k < |table| && table[k].id == id
  {
    map k | 0 <= k < |table| :: table[k].id := table[k].cols
  }

  /** A sequence without repetitions has as many distinct elements as positions. */
  lemma {:induction false} DistinctCard(s: seq<int>)
    requires forall i, j :: 0 <= i < j < |s| ==> s[i] != s[j]
    ensures |set x | x in s| == |s|
  {
    if s != [] {
      var init := s[..|s| - 1];
      DistinctCard(init);
      assert (set x | x in s) == (set x | x in init) + {s[|s| - 1]};
    }
  }

  /** Rows whose ids are the distinct keys of `byId` number as many as those keys. */
  lemma TableIdsFromOrder<T>(byId: map<int, T>, order: seq<int>, table: seq<StagedRow>)
    requires forall i, j :: 0 <= i < j < |order| ==> order[i] != order[j]
    requires forall j :: 0 <= j < |order| ==> order[j] in byId
    requires forall id :: id in byId ==> id in order
    requires |table| == |order|
    requires forall j :: 0 <= j < |table| ==> table[j].id == order[j]
    ensures DistinctIds(table) && |table| == |byId|
  {
    DistinctCard(order);
    var ids := set x | x in order;
    forall x
      ensures x in ids <==> x in byId
    {
      if x in order {
        var j :| 0 <= j < |order| && order[j] == x;
      }
    }
    assert ids == byId.Keys;
  }

  /** Each row of such a table is staged under its id with its own columns. */
  lemma StagedValuesFromOrder<T>(byId: map<int, T>, order: seq<int>, build: T -> SyncCols, table: seq<StagedRow>)
    requires DistinctIds(table)
    requires forall j :: 0 <= j < |order| ==> order[j] in byId
    requires forall id :: id in byId ==> id in order
    requires |table| == |order|
    requires forall j :: 0 <= j < |table| ==> table[j].id == order[j]
    requires forall j :: 0 <= j < |table| ==> table[j].cols == build(byId[order[j]])
    ensures forall id :: id in byId ==> id in StagingOf(table) && StagingOf(table)[id] == build(byId[id])
  {
    forall id | id in byId
      ensures id in StagingOf(table) && StagingOf(table)[id] == build(byId[id])
    {
      var k :| 0 <= k < |order| && order[k] == id;
      assert table[k].id == id;
    }
  }

  /**
   * A table built from each key of `byId`, in the order `order` lists them
   * once each, stages exactly `build` of each record.
   */
  lemma StagingOfTable<T>(byId: map<int, T>, order: seq<int>, build: T -> SyncCols, table: seq<StagedRow>)
    requires forall i, j :: 0 <= i < j < |order| ==> order[i] != order[j]
    requires forall j :: 0 <= j < |order| ==> order[j] in byId
    requires forall id :: id in byId ==> id in order
    requires |table| == |order|
    requires forall j :: 0 <= j < |table| ==> table[j].id == order[j]
    requires forall j :: 0 <= j < |table| ==> table[j].cols == build(byId[order[j]])
    ensures DistinctIds(table) && |table| == |byId|
    ensures StagingOf(table) == BuildAll(byId, build)
  {
    TableIdsFromOrder(byId, order, table);
    StagedValuesFromOrder(byId, order, build, table);
    StagedIdsFromOrder(byId, order, table);
    MapsAgree(StagingOf(table), BuildAll(byId, build));
  }

  /** Every id such a table stages is a key of `byId`. */
  lemma StagedIdsFromOrder<T>(byId: map<int, T>, order: seq<int>, table: seq<StagedRow>)
    requires DistinctIds(table)
    requires forall j :: 0 <= j < |order| ==> order[j] in byId
    requires |table| == |order|
    requires forall j :: 0 <= j < |table| ==> table[j].id == order[j]
    ensures forall id :: id in StagingOf(table) ==> id in byId
  {
    forall id | id in StagingOf(table)
      ensures id in byId
    {
      var k :| 0 <= k < |table| && table[k].id == id;
    }
  }

  /** Two maps with the same keys and the same value at each key are equal. */
  lemma MapsAgree<K, V>(m1: map<K, V>, m2: map<K, V>)
    requires forall k :: k in m1 ==> k in m2 && m1[k] == m2[k]
    requires forall k :: k in m2 ==> k in m1
    ensures m1 == m2
  {
  }

  /**
   * The first loop of `ReadCsvToDataTable`, for any key function: each
   * element whose key parses overwrites `byId[key]`, and a key seen for the
   * first time is appended to `order`.
   */
  method IndexByKey<T>(rs: seq<T>, key: T -> Option<int>) returns (byId: map<int, T>, order: seq<int>)
    ensures byId == LastByKey(rs, key)
    ensures order == FirstSeenKeys(rs, key)
  {
    byId, order := map[], [];
    for i := 0 to |rs|
      invariant byId == LastByKey(rs[..i], key)
      invariant order == FirstSeenKeys(rs[..i], key)
    {
      assert rs[..i + 1] == rs[..i] + [rs[i]];
      KeyedSnoc(rs[..i], rs[i], key);
      var id := key(rs[i]);
      if id.Some? {
        if id.value !in byId {
          order := order + [id.value];
        }
        byId := byId[id.value := rs[i]];
      }
    }
    assert rs[..|rs|] == rs;
  }

  /**
   * The second loop of `ReadCsvToDataTable`: one staged row per id of
   * `order`, in that order, built from the record `byId` holds for it.
   */
  method StageInOrder<T>(byId: map<int, T>, order: seq<int>, build: T -> SyncCols) returns (table: seq<StagedRow>)
    requires forall i, j :: 0 <= i < j < |order| ==> order[i] != order[j]
    requires forall j :: 0 <= j < |order| ==> order[j] in byId
    requires forall id :: id in byId ==> id in order
    ensures |table| == |order| == |byId| && DistinctIds(table)
    ensures forall k :: 0 <= k < |table| ==> table[k].id == order[k]
    ensures StagingOf(table) == BuildAll(byId, build)
  {
    table := [];
    for k := 0 to |order|
      invariant |table| == k
      invariant forall j :: 0 <= j < k ==> table[j].id == order[j]
      invariant forall j :: 0 <= j < k ==> table[j].cols == build(byId[order[j]])
    {
      table := table + [StagedRow(order[k], build(byId[order[k]]))];
    }
    StagingOfTable(byId, order, build, table);
  }

  /**
   * `ReadCsvToDataTable`: one row per distinct parsed id, in the
   * dictionary's enumeration order, whose columns come from the last
   * record with that id.
   */
  method ReadCsvToDataTable(records: seq<CsvRecord>, p: Parsers) returns (table: seq<StagedRow>)
    ensures |table| == |FirstSeenKeys(records, ParsedId)| == |LastById(records)|
    ensures forall k :: 0 <= k < |table| ==> table[k].id == FirstSeenKeys(records, ParsedId)[k]
    ensures DistinctIds(table)
    ensures StagingOf(table) == SnapshotOf(records, p)
  {
    var byId, order := IndexByKey(records, ParsedId);
    table := StageInOrder(byId, order, Builder(p));
  }
}
