/**
 * The `chartData` computation of the proposal timeline: monthly cost records grouped by
 * their month key in first-seen order, each month totalled and split into the four circuit
 * categories. Fetching the records and formatting the month label are not part of this model.
 */
module ProposalTimeline {
  import opened Wrappers
  import Text
  import opened Seqs

  /** A `proposal_monthly_costs` row: its month key, its cost and its circuit's type, if any. */
  datatype CostRecord = CostRecord(monthYear: string, monthlyCost: int, circuitType: Option<string>)

  /** One bar of the chart; `month` is the record's month key. */
  datatype MonthData = MonthData(month: string, totalCost: int, mpls: int, dia: int, broadband: int, lte: int)

  /** The bucket a new month starts from. */
  function NewMonth(key: string): (r: MonthData) {
    MonthData(key, 0, 0, 0, 0, 0)
  }

  /** `record.circuit?.type?.toLowerCase() || ''`. */
  function TypeKey(r: CostRecord): (key: string)
    ensures r.circuitType.None? ==> key == ""
    ensures |key| == |r.circuitType.GetOr("")|
    ensures Text.Lower(key) == key
  {
    Text.LowerIdempotent(r.circuitType.GetOr(""));
    Text.Lower(r.circuitType.GetOr(""))
  }

  /** Whether the lowercased type names one of the four categories the chart shows. */
  predicate Categorized(typeKey: string) {
    Text.Contains(typeKey, "mpls") || Text.Contains(typeKey, "dia")
    || Text.Contains(typeKey, "broadband") || Text.Contains(typeKey, "lte")
  }

  /** The four categories of the chart. */
  datatype Category = Mpls | Dia | Broadband | Lte

  /** The category a lowercased type falls into: the first of mpls, dia, broadband and lte it contains. */
  function CategoryOf(typeKey: string): (c: Option<Category>)
    ensures c.None? <==> !Categorized(typeKey)
    ensures c == Some(Mpls) <==> Text.Contains(typeKey, "mpls")
    ensures c == Some(Dia) <==> !Text.Contains(typeKey, "mpls") && Text.Contains(typeKey, "dia")
    ensures c == Some(Broadband) <==>
      !Text.Contains(typeKey, "mpls") && !Text.Contains(typeKey, "dia") && Text.Contains(typeKey, "broadband")
  {
    if Text.Contains(typeKey, "mpls") then Some(Mpls)
    else if Text.Contains(typeKey, "dia") then Some(Dia)
    else if Text.Contains(typeKey, "broadband") then Some(Broadband)
    else if Text.Contains(typeKey, "lte") then Some(Lte)
    else None
  }

  /** The bar segment of one category. */
  function CategoryCost(m: MonthData, c: Category): (cost: int) {
    match c
    case Mpls => m.mpls
    case Dia => m.dia
    case Broadband => m.broadband
    case Lte => m.lte
  }

  /**
   * One pass of the `forEach` on the record's month: the first of mpls, dia, broadband and
   * lte that the lowercased type contains grows by the record's cost, and so does the total.
   * The other three categories stay as they are, and a type naming none of them changes none.
   */
  function AddRecord(m: MonthData, r: CostRecord): (added: MonthData)
    ensures added.month == m.month
    ensures added.totalCost == m.totalCost + r.monthlyCost
    ensures Categories(added) == Categories(m) + if Categorized(TypeKey(r)) then r.monthlyCost else 0
    ensures Text.Contains(TypeKey(r), "mpls") ==>
      added.mpls == m.mpls + r.monthlyCost && added.dia == m.dia && added.broadband == m.broadband && added.lte == m.lte
    ensures !Text.Contains(TypeKey(r), "mpls") && Text.Contains(TypeKey(r), "dia") ==>
      added.mpls == m.mpls && added.dia == m.dia + r.monthlyCost && added.broadband == m.broadband && added.lte == m.lte
    ensures !Text.Contains(TypeKey(r), "mpls") && !Text.Contains(TypeKey(r), "dia") && Text.Contains(TypeKey(r), "broadband") ==>
      added.mpls == m.mpls && added.dia == m.dia && added.broadband == m.broadband + r.monthlyCost && added.lte == m.lte
    ensures (!Text.Contains(TypeKey(r), "mpls") && !Text.Contains(TypeKey(r), "dia") &&
             !Text.Contains(TypeKey(r), "broadband") && Text.Contains(TypeKey(r), "lte")) ==>
      added.mpls == m.mpls && added.dia == m.dia && added.broadband == m.broadband && added.lte == m.lte + r.monthlyCost
    ensures !Categorized(TypeKey(r)) ==>
      added.mpls == m.mpls && added.dia == m.dia && added.broadband == m.broadband && added.lte == m.lte
  {
    var t := TypeKey(r);
    var c := r.monthlyCost;
    var m' :=
      if Text.Contains(t, "mpls") then m.(mpls := m.mpls + c)
      else if Text.Contains(t, "dia") then m.(dia := m.dia + c)
      else if Text.Contains(t, "broadband") then m.(broadband := m.broadband + c)
      else if Text.Contains(t, "lte") then m.(lte := m.lte + c)
      else m;
    m'.(totalCost := m'.totalCost + c)
  }

  function Categories(m: MonthData): (r: int) {
    m.mpls + m.dia + m.broadband + m.lte
  }

  /** The month keys of `rs`, each once, in the order they first appear. */
  function MonthKeys(rs: seq<CostRecord>): (r: seq<string>)
    ensures |r| <= |rs|
    ensures rs != [] ==> r != [] && rs[|rs| - 1].monthYear in r
  {
    if rs == [] then []
    else
      var keys := MonthKeys(rs[..|rs| - 1]);
      if rs[|rs| - 1].monthYear in keys then keys else keys + [rs[|rs| - 1].monthYear]
  }

  /** The bucket of month `key` after every record of `rs` has been added. */
  function MonthSummary(rs: seq<CostRecord>, key: string): (r: MonthData)
    ensures r.month == key
  {
    if rs == [] then NewMonth(key)
    else
      var m := MonthSummary(rs[..|rs| - 1], key);
      if rs[|rs| - 1].monthYear == key then AddRecord(m, rs[|rs| - 1]) else m
  }

  function Summaries(rs: seq<CostRecord>, keys: seq<string>): (r: seq<MonthData>)
    ensures |r| == |keys| && forall i :: 0 <= i < |keys| ==> r[i] == MonthSummary(rs, keys[i])
  {
    if keys == [] then [] else Summaries(rs, keys[..|keys| - 1]) + [MonthSummary(rs, keys[|keys| - 1])]
  }

  /** `chartData`: nothing without data, otherwise one bucket per month key in first-seen order. */
  function Chart(monthlyCosts: Option<seq<CostRecord>>): (r: seq<MonthData>)
    ensures monthlyCosts.None? ==> r == []
    ensures monthlyCosts.Some? ==> |r| == |MonthKeys(monthlyCosts.value)|
    ensures monthlyCosts.Some? ==> forall i :: 0 <= i < |r| ==>
              r[i].month == MonthKeys(monthlyCosts.value)[i] && r[i] == MonthSummary(monthlyCosts.value, r[i].month)
  {
    match monthlyCosts
    case None => []
    case Some(rs) => Summaries(rs, MonthKeys(rs))
  }

  lemma MonthKeysStep(rs: seq<CostRecord>, i: int)
    requires 0 <= i < |rs|
    ensures MonthKeys(rs[..i + 1]) ==
      if rs[i].monthYear in MonthKeys(rs[..i]) then MonthKeys(rs[..i]) else MonthKeys(rs[..i]) + [rs[i].monthYear]
  {
    assert rs[..i + 1][..i] == rs[..i];
  }

  lemma MonthSummaryStep(rs: seq<CostRecord>, i: int, key: string)
    requires 0 <= i < |rs|
    ensures MonthSummary(rs[..i + 1], key) ==
      if rs[i].monthYear == key then AddRecord(MonthSummary(rs[..i], key), rs[i]) else MonthSummary(rs[..i], key)
  {
    assert rs[..i + 1][..i] == rs[..i];
  }

  /** A month that no record has is still its fresh bucket. */
  lemma {:induction false} UnseenMonth(rs: seq<CostRecord>, key: string)
    requires key !in MonthKeys(rs)
    ensures MonthSummary(rs, key) == NewMonth(key)
  {
    if rs != [] {
      UnseenMonth(rs[..|rs| - 1], key);
    }
  }

  /**
   * What the loop of `chartData` keeps after the records `rs`: the insertion order is the
   * first-seen month keys, the map's keys are exactly those, and each bucket is its month's.
   */
  ghost predicate Tracked(rs: seq<CostRecord>, monthlyData: map<string, MonthData>, insertionOrder: seq<string>) {
    insertionOrder == MonthKeys(rs)
    && (forall k :: k in monthlyData <==> k in insertionOrder)
    && forall k :: k in monthlyData ==> monthlyData[k] == MonthSummary(rs, k)
  }

  /**
   * One record of the loop: its month's bucket is the stored one or a fresh one, and storing
   * that bucket with the record added (and the key, when new) keeps `Tracked`.
   */
  lemma TrackStep(records: seq<CostRecord>, i: int, monthlyData: map<string, MonthData>, insertionOrder: seq<string>)
    requires 0 <= i < |records|
    requires Tracked(records[..i], monthlyData, insertionOrder)
    ensures var key := records[i].monthYear;
      var start := if key in monthlyData then monthlyData[key] else NewMonth(key);
      Tracked(records[..i + 1], monthlyData[key := AddRecord(start, records[i])],
              if key in monthlyData then insertionOrder else insertionOrder + [key])
  {
    var key := records[i].monthYear;
    if key !in monthlyData {
      UnseenMonth(records[..i], key);
    }
    MonthKeysStep(records, i);
    forall k ensures MonthSummary(records[..i + 1], k) ==
      if key == k then AddRecord(MonthSummary(records[..i], k), records[i]) else MonthSummary(records[..i], k)
    {
      MonthSummaryStep(records, i, k);
    }
  }

  /** The body of the `forEach` on one bucket: the category counters, then the total. */
  method AddToMonth(monthData: MonthData, record: CostRecord) returns (r: MonthData)
    ensures r == AddRecord(monthData, record)
  {
    r := monthData;
    var t := TypeKey(record);
    if Text.Contains(t, "mpls") {
      r := r.(mpls := r.mpls + record.monthlyCost);
    } else if Text.Contains(t, "dia") {
      r := r.(dia := r.dia + record.monthlyCost);
    } else if Text.Contains(t, "broadband") {
      r := r.(broadband := r.broadband + record.monthlyCost);
    } else if Text.Contains(t, "lte") {
      r := r.(lte := r.lte + record.monthlyCost);
    }
    r := r.(totalCost := r.totalCost + record.monthlyCost);
  }

  /**
   * The `forEach` over the records, filling the `Map` from month key to bucket and
   * incrementing the bucket's counters, then `Array.from(monthlyData.values())`.
   */
  method ChartData(monthlyCosts: Option<seq<CostRecord>>) returns (chartData: seq<MonthData>)
    ensures chartData == Chart(monthlyCosts)
  {
    if monthlyCosts.None? {
      return [];
    }
    var records := monthlyCosts.value;
    var monthlyData: map<string, MonthData> := map[];
    var insertionOrder: seq<string> := [];
    var i := 0;
    while i < |records|
      invariant 0 <= i <= |records|
      invariant Tracked(records[..i], monthlyData, insertionOrder)
    {
      var record := records[i];
      var monthKey := record.monthYear;
      TrackStep(records, i, monthlyData, insertionOrder);
      var monthData: MonthData;
      if monthKey in monthlyData {
        monthData := monthlyData[monthKey];
      } else {
        monthData := NewMonth(monthKey);
      }
      monthData := AddToMonth(monthData, record);
      if monthKey !in monthlyData {
        insertionOrder := insertionOrder + [monthKey];
      }
      monthlyData := monthlyData[monthKey := monthData];
      i := i + 1;
    }
    assert records[..i] == records;
    chartData := [];
    var j := 0;
    while j < |insertionOrder|
      invariant 0 <= j <= |insertionOrder|
      invariant chartData == Summaries(records, insertionOrder[..j])
    {
      chartData := chartData + [monthlyData[insertionOrder[j]]];
      assert insertionOrder[..j + 1][..j] == insertionOrder[..j];
      j := j + 1;
    }
    assert insertionOrder[..j] == insertionOrder;
  }

  // ---------------------------------------------------------------------------
  // Properties of the chart

  /** The position of the first record with month `key`. */
  function FirstIndex(rs: seq<CostRecord>, key: string): (k: nat)
    ensures k <= |rs|
    ensures k < |rs| ==> rs[k].monthYear == key
    ensures forall j :: 0 <= j < k ==> rs[j].monthYear != key
  {
    if rs == [] then 0
    else if rs[0].monthYear == key then 0
    else 1 + FirstIndex(rs[1..], key)
  }

  lemma FirstIndexPrefix(rs: seq<CostRecord>, key: string)
    requires rs != [] && FirstIndex(rs[..|rs| - 1], key) < |rs| - 1
    ensures FirstIndex(rs, key) == FirstIndex(rs[..|rs| - 1], key)
  {
    var init := rs[..|rs| - 1];
    var k := FirstIndex(init, key);
    assert init[k] == rs[k];
    forall j | 0 <= j < k ensures rs[j].monthYear != key {
      assert init[j] == rs[j];
    }
    FirstIndexUnique(rs, key, k);
  }

  lemma FirstIndexUnique(rs: seq<CostRecord>, key: string, k: nat)
    requires k < |rs| && rs[k].monthYear == key
    requires forall j :: 0 <= j < k ==> rs[j].monthYear != key
    ensures FirstIndex(rs, key) == k
  {
    var f := FirstIndex(rs, key);
    assert !(f < k);
    assert !(k < f);
  }

  /**
   * One bucket per distinct month key: a key appears exactly when some record has it, each
   * key once, in the order of the keys' first records.
   */
  lemma MonthKeysFirstSeen(rs: seq<CostRecord>)
    ensures forall key :: key in MonthKeys(rs) <==> exists i :: 0 <= i < |rs| && rs[i].monthYear == key
    ensures forall i :: 0 <= i < |MonthKeys(rs)| ==> FirstIndex(rs, MonthKeys(rs)[i]) < |rs|
    ensures forall i, j :: 0 <= i < j < |MonthKeys(rs)| ==>
      FirstIndex(rs, MonthKeys(rs)[i]) < FirstIndex(rs, MonthKeys(rs)[j])
  {
    MonthKeysMembers(rs);
    MonthKeysOrder(rs);
  }

  /** The keys are exactly the months some record has. */
  lemma {:induction false} MonthKeysMembers(rs: seq<CostRecord>)
    ensures forall key :: key in MonthKeys(rs) <==> exists i :: 0 <= i < |rs| && rs[i].monthYear == key
  {
    if rs != [] {
      var init := rs[..|rs| - 1];
      MonthKeysMembers(init);
      forall key ensures key in MonthKeys(rs) <==> exists i :: 0 <= i < |rs| && rs[i].monthYear == key {
        if exists i :: 0 <= i < |init| && init[i].monthYear == key {
          var i :| 0 <= i < |init| && init[i].monthYear == key;
          assert rs[i] == init[i];
        }
        if exists i :: 0 <= i < |rs| && rs[i].monthYear == key {
          var i :| 0 <= i < |rs| && rs[i].monthYear == key;
          if i < |init| {
            assert init[i] == rs[i];
          }
        }
      }
    }
  }

  /** The keys come in the order of their first records. */
  lemma {:induction false} MonthKeysOrder(rs: seq<CostRecord>)
    ensures forall i :: 0 <= i < |MonthKeys(rs)| ==> FirstIndex(rs, MonthKeys(rs)[i]) < |rs|
    ensures forall i, j :: 0 <= i < j < |MonthKeys(rs)| ==>
      FirstIndex(rs, MonthKeys(rs)[i]) < FirstIndex(rs, MonthKeys(rs)[j])
  {
    if rs != [] {
      var init := rs[..|rs| - 1];
      var last := rs[|rs| - 1];
      var keys := MonthKeys(init);
      MonthKeysOrder(init);
      MonthKeysMembers(init);
      forall i | 0 <= i < |keys| ensures FirstIndex(rs, keys[i]) == FirstIndex(init, keys[i]) {
        FirstIndexPrefix(rs, keys[i]);
      }
      if last.monthYear !in keys {
        forall j | 0 <= j < |rs| - 1 ensures rs[j].monthYear != last.monthYear {
          assert init[j] == rs[j];
        }
        FirstIndexUnique(rs, last.monthYear, |rs| - 1);
      }
    }
  }

  lemma {:induction false} MonthKeysDistinct(rs: seq<CostRecord>)
    ensures forall i, j :: 0 <= i < j < |MonthKeys(rs)| ==> MonthKeys(rs)[i] != MonthKeys(rs)[j]
  {
    if rs != [] {
      MonthKeysDistinct(rs[..|rs| - 1]);
    }
  }

  function CostOf(r: CostRecord): (cost: int) {
    r.monthlyCost
  }

  /** The records of month `key`, in order. */
  function RecordsOf(rs: seq<CostRecord>, key: string): (r: seq<CostRecord>)
    ensures forall x :: x in r <==> x in rs && x.monthYear == key
  {
    if rs == [] then []
    else
      var init := RecordsOf(rs[..|rs| - 1], key);
      var last := rs[|rs| - 1];
      assert forall x :: x in rs <==> x in rs[..|rs| - 1] || x == last by {
        assert rs == rs[..|rs| - 1] + [last];
      }
      if last.monthYear == key then init + [last] else init
  }

  /** The records whose type names none of the four categories, in order. */
  function Uncategorized(rs: seq<CostRecord>): (r: seq<CostRecord>) {
    if rs == [] then []
    else
      var init := Uncategorized(rs[..|rs| - 1]);
      var last := rs[|rs| - 1];
      if Categorized(TypeKey(last)) then init else init + [last]
  }

  lemma RecordsOfStep(rs: seq<CostRecord>, key: string)
    requires rs != [] && rs[|rs| - 1].monthYear == key
    ensures var ri := RecordsOf(rs[..|rs| - 1], key); var last := rs[|rs| - 1];
      Sum(RecordsOf(rs, key), CostOf) == Sum(ri, CostOf) + last.monthlyCost
      && Sum(Uncategorized(RecordsOf(rs, key)), CostOf) ==
        Sum(Uncategorized(ri), CostOf) + if Categorized(TypeKey(last)) then 0 else last.monthlyCost
  {
    var ri := RecordsOf(rs[..|rs| - 1], key);
    var last := rs[|rs| - 1];
    assert (ri + [last])[..|ri + [last]| - 1] == ri;
    if !Categorized(TypeKey(last)) {
      var u := Uncategorized(ri);
      assert (u + [last])[..|u + [last]| - 1] == u;
    }
  }

  /** A month's total is the sum of the costs of the records of that month. */
  lemma {:induction false} MonthTotal(rs: seq<CostRecord>, key: string)
    ensures MonthSummary(rs, key).totalCost == Sum(RecordsOf(rs, key), CostOf)
  {
    if rs != [] {
      var init := rs[..|rs| - 1];
      MonthTotal(init, key);
      if rs[|rs| - 1].monthYear == key {
        RecordsOfStep(rs, key);
      }
    }
  }

  /**
   * The four categories and the records whose type names none of them add up to the month's
   * total; `MonthCategory` says which category each categorised record goes to.
   */
  lemma {:induction false} MonthCategories(rs: seq<CostRecord>, key: string)
    ensures var m := MonthSummary(rs, key);
      Categories(m) + Sum(Uncategorized(RecordsOf(rs, key)), CostOf) == m.totalCost
  {
    if rs != [] {
      var init := rs[..|rs| - 1];
      MonthCategories(init, key);
      if rs[|rs| - 1].monthYear == key {
        RecordsOfStep(rs, key);
      }
    }
  }

  /** The records whose type falls into category `c`, in order. */
  function InCategory(rs: seq<CostRecord>, c: Category): (r: seq<CostRecord>)
    ensures forall x :: x in r <==> x in rs && CategoryOf(TypeKey(x)) == Some(c)
  {
    if rs == [] then []
    else
      var init := InCategory(rs[..|rs| - 1], c);
      var last := rs[|rs| - 1];
      assert forall x :: x in rs <==> x in rs[..|rs| - 1] || x == last by {
        assert rs == rs[..|rs| - 1] + [last];
      }
      if CategoryOf(TypeKey(last)) == Some(c) then init + [last] else init
  }

  /** A record grows exactly the segment of its own category, if it has one. */
  lemma AddRecordCategory(m: MonthData, r: CostRecord, c: Category)
    ensures CategoryCost(AddRecord(m, r), c) ==
      CategoryCost(m, c) + if CategoryOf(TypeKey(r)) == Some(c) then r.monthlyCost else 0
  {
  }

  lemma InCategoryStep(rs: seq<CostRecord>, key: string, c: Category)
    requires rs != [] && rs[|rs| - 1].monthYear == key
    ensures var last := rs[|rs| - 1];
      Sum(InCategory(RecordsOf(rs, key), c), CostOf) ==
      Sum(InCategory(RecordsOf(rs[..|rs| - 1], key), c), CostOf) + if CategoryOf(TypeKey(last)) == Some(c) then last.monthlyCost else 0
  {
    var ri := RecordsOf(rs[..|rs| - 1], key);
    var last := rs[|rs| - 1];
    assert (ri + [last])[..|ri + [last]| - 1] == ri;
    if CategoryOf(TypeKey(last)) == Some(c) {
      var u := InCategory(ri, c);
      assert (u + [last])[..|u + [last]| - 1] == u;
    }
  }

  /** Each category's segment is the sum of the costs of the month's records whose first matching category it is. */
  lemma {:induction false} MonthCategory(rs: seq<CostRecord>, key: string, c: Category)
    ensures CategoryCost(MonthSummary(rs, key), c) == Sum(InCategory(RecordsOf(rs, key), c), CostOf)
  {
    if rs != [] {
      var init := rs[..|rs| - 1];
      MonthCategory(init, key, c);
      if rs[|rs| - 1].monthYear == key {
        AddRecordCategory(MonthSummary(init, key), rs[|rs| - 1], c);
        InCategoryStep(rs, key, c);
      }
    }
  }

  lemma {:induction false} SumNonNegative(rs: seq<CostRecord>)
    requires forall i :: 0 <= i < |rs| ==> rs[i].monthlyCost >= 0
    ensures Sum(rs, CostOf) >= 0
  {
    if rs != [] {
      SumNonNegative(rs[..|rs| - 1]);
    }
  }

  lemma {:induction false} UncategorizedMembers(rs: seq<CostRecord>)
    ensures forall x :: x in Uncategorized(rs) ==> x in rs
  {
    if rs != [] {
      UncategorizedMembers(rs[..|rs| - 1]);
      assert rs == rs[..|rs| - 1] + [rs[|rs| - 1]];
    }
  }

  /** With no negative cost, the four categories never add up to more than the month's total. */
  lemma CategoriesWithinTotal(rs: seq<CostRecord>, key: string)
    requires forall i :: 0 <= i < |rs| ==> rs[i].monthlyCost >= 0
    ensures var m := MonthSummary(rs, key); Categories(m) <= m.totalCost
  {
    MonthCategories(rs, key);
    var u := Uncategorized(RecordsOf(rs, key));
    UncategorizedMembers(RecordsOf(rs, key));
    forall i | 0 <= i < |u| ensures u[i].monthlyCost >= 0 {
      assert u[i] in rs;
    }
    SumNonNegative(u);
  }
}
