/**
 * The filter and sort stage of `filterUtils`: the per-bucket filter by type, search text,
 * carrier and purpose, and the stable sort of each bucket by one circuit field.
 */
module FilterUtils {
  import opened Wrappers
  import Text
  import opened Seqs
  import opened Circuits
  import opened CircuitUtils

  /** Which buckets a filter keeps. */
  datatype FilterType = All | Added | Removed | Modified

  /** `CircuitFilter`; an absent criterion is `None`. `criticality` is carried but never consulted. */
  datatype CircuitFilter = CircuitFilter(
    filterType: FilterType,
    purpose: Option<string>,
    carrier: Option<string>,
    criticality: Option<string>,
    search: Option<string>)

  /** An absent or empty string criterion, which JavaScript treats as false. */
  predicate Blank(o: Option<string>) {
    o.None? || o.value == ""
  }

  /** `matchesSearch`: a blank search matches; otherwise the lower-cased search occurs in the lower-cased carrier, type or bandwidth. */
  predicate MatchesSearch(c: Circuit, search: Option<string>)
    ensures Blank(search) ==> MatchesSearch(c, search)
  {
    Blank(search) ||
    var s := Text.Lower(search.value);
    Text.Contains(Text.Lower(c.carrier), s) ||
    Text.Contains(Text.Lower(c.circuitType), s) ||
    Text.Contains(Text.Lower(c.bandwidth), s)
  }

  /** `matchesCarrier`: a blank carrier matches; otherwise exact, case-sensitive equality. */
  predicate MatchesCarrier(c: Circuit, filter: CircuitFilter) {
    Blank(filter.carrier) || c.carrier == filter.carrier.value
  }

  /** `matchesPurpose`: a blank purpose matches; otherwise exact, case-sensitive equality. */
  predicate MatchesPurpose(c: Circuit, filter: CircuitFilter) {
    Blank(filter.purpose) || c.purpose == filter.purpose.value
  }

  /** The predicate every bucket's `filter` call applies. */
  predicate Matches(c: Circuit, filter: CircuitFilter)
    ensures Blank(filter.search) && Blank(filter.carrier) && Blank(filter.purpose) ==> Matches(c, filter)
  {
    MatchesSearch(c, filter.search) && MatchesCarrier(c, filter) && MatchesPurpose(c, filter)
  }

  /** A circuit viewed as itself. */
  function Self(c: Circuit): (r: Circuit) { c }

  /** A modified entry viewed as its proposed circuit. */
  function EntryCircuit(e: ModifiedEntry): (r: Circuit) { e.circuit }

  /** `s.filter(x => matches(circuitOf(x)))`. */
  function FilterBy<T>(s: seq<T>, circuitOf: T -> Circuit, filter: CircuitFilter): (r: seq<T>)
    ensures |r| <= |s|
    ensures forall i :: 0 <= i < |r| ==> Matches(circuitOf(r[i]), filter)
  {
    if s == [] then []
    else
      var x := s[|s| - 1];
      FilterBy(s[..|s| - 1], circuitOf, filter) + (if Matches(circuitOf(x), filter) then [x] else [])
  }

  /** `filter.type === 'all' || filter.type === bucket`. */
  predicate Selects(t: FilterType, bucket: FilterType) {
    t == All || t == bucket
  }

  /** `filterCircuits`: each selected bucket filtered, each other bucket empty. */
  function FilterCircuits(comparison: Comparison, filter: CircuitFilter): (r: Comparison)
    ensures |r.added| <= |comparison.added| && |r.removed| <= |comparison.removed| && |r.modified| <= |comparison.modified|
    ensures !Selects(filter.filterType, Added) ==> r.added == []
    ensures !Selects(filter.filterType, Removed) ==> r.removed == []
    ensures !Selects(filter.filterType, Modified) ==> r.modified == []
  {
    Comparison(
      if Selects(filter.filterType, Added) then FilterBy(comparison.added, Self, filter) else [],
      if Selects(filter.filterType, Removed) then FilterBy(comparison.removed, Self, filter) else [],
      if Selects(filter.filterType, Modified) then FilterBy(comparison.modified, EntryCircuit, filter) else [])
  }

  lemma {:induction false} FilterByMembers<T>(s: seq<T>, circuitOf: T -> Circuit, filter: CircuitFilter, x: T)
    ensures x in FilterBy(s, circuitOf, filter) <==> x in s && Matches(circuitOf(x), filter)
    ensures multiset(FilterBy(s, circuitOf, filter))[x] == if Matches(circuitOf(x), filter) then multiset(s)[x] else 0
  {
    if s != [] {
      FilterByMembers(s[..|s| - 1], circuitOf, filter, x);
      Snoc(s);
    }
  }

  lemma {:induction false} FilterBySubsequence<T>(s: seq<T>, circuitOf: T -> Circuit, filter: CircuitFilter)
    ensures IsSubsequence(FilterBy(s, circuitOf, filter), s)
  {
    if s != [] {
      var init := s[..|s| - 1];
      FilterBySubsequence(init, circuitOf, filter);
      var r := FilterBy(s, circuitOf, filter);
      if Matches(circuitOf(s[|s| - 1]), filter) {
        assert r[..|r| - 1] == FilterBy(init, circuitOf, filter);
      } else {
        assert r == FilterBy(init, circuitOf, filter);
        if r != [] {
          assert IsSubsequence(r, init);
        }
      }
    }
  }

  /** A filter every element passes keeps the list as it is. */
  lemma {:induction false} FilterByKeepsAll<T>(s: seq<T>, circuitOf: T -> Circuit, filter: CircuitFilter)
    requires forall x :: x in s ==> Matches(circuitOf(x), filter)
    ensures FilterBy(s, circuitOf, filter) == s
  {
    if s != [] {
      FilterByKeepsAll(s[..|s| - 1], circuitOf, filter);
      assert s[|s| - 1] in s;
    }
  }

  /**
   * After `filterCircuits` a bucket holds exactly the bucket's elements whose circuit
   * passes every criterion, in their original order, when the type selects that bucket, and
   * is empty otherwise.
   */
  lemma FilterCircuitsBuckets(comparison: Comparison, filter: CircuitFilter)
    ensures forall c :: c in FilterCircuits(comparison, filter).added <==>
              Selects(filter.filterType, Added) && c in comparison.added && Matches(c, filter)
    ensures forall c :: c in FilterCircuits(comparison, filter).removed <==>
              Selects(filter.filterType, Removed) && c in comparison.removed && Matches(c, filter)
    ensures forall e :: e in FilterCircuits(comparison, filter).modified <==>
              Selects(filter.filterType, Modified) && e in comparison.modified && Matches(e.circuit, filter)
    ensures IsSubsequence(FilterCircuits(comparison, filter).added, comparison.added)
    ensures IsSubsequence(FilterCircuits(comparison, filter).removed, comparison.removed)
    ensures IsSubsequence(FilterCircuits(comparison, filter).modified, comparison.modified)
    ensures forall c :: multiset(FilterCircuits(comparison, filter).added)[c] ==
              if Selects(filter.filterType, Added) && Matches(c, filter) then multiset(comparison.added)[c] else 0
    ensures forall c :: multiset(FilterCircuits(comparison, filter).removed)[c] ==
              if Selects(filter.filterType, Removed) && Matches(c, filter) then multiset(comparison.removed)[c] else 0
    ensures forall e :: multiset(FilterCircuits(comparison, filter).modified)[e] ==
              if Selects(filter.filterType, Modified) && Matches(e.circuit, filter) then multiset(comparison.modified)[e] else 0
  {
    forall c ensures c in FilterBy(comparison.added, Self, filter) <==> c in comparison.added && Matches(c, filter)
      ensures multiset(FilterBy(comparison.added, Self, filter))[c] == if Matches(c, filter) then multiset(comparison.added)[c] else 0
    {
      FilterByMembers(comparison.added, Self, filter, c);
    }
    forall c ensures c in FilterBy(comparison.removed, Self, filter) <==> c in comparison.removed && Matches(c, filter)
      ensures multiset(FilterBy(comparison.removed, Self, filter))[c] == if Matches(c, filter) then multiset(comparison.removed)[c] else 0
    {
      FilterByMembers(comparison.removed, Self, filter, c);
    }
    forall e ensures e in FilterBy(comparison.modified, EntryCircuit, filter) <==> e in comparison.modified && Matches(e.circuit, filter)
      ensures multiset(FilterBy(comparison.modified, EntryCircuit, filter))[e] == if Matches(e.circuit, filter) then multiset(comparison.modified)[e] else 0
    {
      FilterByMembers(comparison.modified, EntryCircuit, filter, e);
    }
    FilterBySubsequence(comparison.added, Self, filter);
    FilterBySubsequence(comparison.removed, Self, filter);
    FilterBySubsequence(comparison.modified, EntryCircuit, filter);
  }

  /** A non-blank search matches exactly when its lower-cased text is a substring of one of the three lower-cased fields. */
  lemma MatchesSearchIffSubstring(c: Circuit, search: string)
    requires search != ""
    ensures MatchesSearch(c, Some(search)) <==>
      Text.IsSubstring(Text.Lower(search), Text.Lower(c.carrier)) ||
      Text.IsSubstring(Text.Lower(search), Text.Lower(c.circuitType)) ||
      Text.IsSubstring(Text.Lower(search), Text.Lower(c.bandwidth))
  {
    Text.ContainsIffOccurs(Text.Lower(c.carrier), Text.Lower(search));
    Text.ContainsIffOccurs(Text.Lower(c.circuitType), Text.Lower(search));
    Text.ContainsIffOccurs(Text.Lower(c.bandwidth), Text.Lower(search));
  }

  /** The search is case-insensitive in its own text too: lower-casing it first changes nothing. */
  lemma MatchesSearchIgnoresCase(c: Circuit, search: string)
    ensures MatchesSearch(c, Some(search)) <==> MatchesSearch(c, Some(Text.Lower(search)))
  {
    Text.LowerIdempotent(search);
  }

  /** With type `all` and no criterion set, filtering changes nothing. */
  lemma FilterWithoutCriteria(comparison: Comparison, filter: CircuitFilter)
    requires filter.filterType == All
    requires Blank(filter.search) && Blank(filter.carrier) && Blank(filter.purpose)
    ensures FilterCircuits(comparison, filter) == comparison
  {
    FilterByKeepsAll(comparison.added, Self, filter);
    FilterByKeepsAll(comparison.removed, Self, filter);
    FilterByKeepsAll(comparison.modified, EntryCircuit, filter);
  }

  // ---------------------------------------------------------------------------
  // sortCircuits

  datatype SortField = SortCarrier | SortType | SortBandwidth | SortMonthlyCost
  datatype SortDirection = Asc | Desc
  datatype CircuitSort = CircuitSort(field: SortField, direction: SortDirection)

  /** The text of a string sort field. */
  function SortText(field: SortField, c: Circuit): (r: string) {
    match field
    case SortCarrier => c.carrier
    case SortType => c.circuitType
    case SortBandwidth => c.bandwidth
    case SortMonthlyCost => ""
  }

  /**
   * `sortFn`: the cost numerically, any other field as its lower-cased text, with `desc`
   * swapping the operands. Text is compared by character code.
   */
  function SortCompare(sort: CircuitSort, a: Circuit, b: Circuit): (r: int)
    ensures sort.field == SortMonthlyCost ==>
              (r < 0 <==> if sort.direction == Asc then a.monthlyCost < b.monthlyCost else b.monthlyCost < a.monthlyCost)
    ensures sort.field != SortMonthlyCost ==> -1 <= r <= 1
    ensures a == b ==> r == 0
  {
    Text.CompareZeroIffEqual(Text.Lower(SortText(sort.field, a)), Text.Lower(SortText(sort.field, b)));
    Text.CompareZeroIffEqual(Text.Lower(SortText(sort.field, b)), Text.Lower(SortText(sort.field, a)));
    if sort.field == SortMonthlyCost then
      if sort.direction == Asc then a.monthlyCost - b.monthlyCost else b.monthlyCost - a.monthlyCost
    else
      var ta := Text.Lower(SortText(sort.field, a));
      var tb := Text.Lower(SortText(sort.field, b));
      if sort.direction == Asc then Text.Compare(ta, tb) else Text.Compare(tb, ta)
  }

  /** The comparator is consistent: swapping the circuits negates it. */
  lemma SortCompareAntisymmetric(sort: CircuitSort, a: Circuit, b: Circuit)
    ensures SortCompare(sort, a, b) == -SortCompare(sort, b, a)
  {
    if sort.field != SortMonthlyCost {
      Text.CompareAntisymmetric(Text.Lower(SortText(sort.field, a)), Text.Lower(SortText(sort.field, b)));
    }
  }

  /** The comparator is consistent: "not after" is transitive. */
  lemma SortCompareTransitive(sort: CircuitSort, a: Circuit, b: Circuit, c: Circuit)
    requires SortCompare(sort, a, b) <= 0 && SortCompare(sort, b, c) <= 0
    ensures SortCompare(sort, a, c) <= 0
  {
    if sort.field != SortMonthlyCost {
      var ta := Text.Lower(SortText(sort.field, a));
      var tb := Text.Lower(SortText(sort.field, b));
      var tc := Text.Lower(SortText(sort.field, c));
      if sort.direction == Asc {
        Text.CompareTransitive(ta, tb, tc);
      } else {
        Text.CompareTransitive(tc, tb, ta);
      }
    }
  }

  /** Two circuits that both tie with a third tie with each other. */
  lemma SortCompareTies(sort: CircuitSort, a: Circuit, b: Circuit, k: Circuit)
    requires SortCompare(sort, a, k) == 0 && SortCompare(sort, b, k) == 0
    ensures SortCompare(sort, a, b) == 0
  {
    SortCompareAntisymmetric(sort, b, k);
    SortCompareAntisymmetric(sort, a, k);
    SortCompareTransitive(sort, a, k, b);
    SortCompareTransitive(sort, b, k, a);
    SortCompareAntisymmetric(sort, a, b);
  }

  /** Inserts `x` after every element that does not sort after it. */
  function Insert<T>(x: T, t: seq<T>, circuitOf: T -> Circuit, sort: CircuitSort): (r: seq<T>)
    ensures |r| == |t| + 1
    ensures x in r
  {
    if t == [] then [x]
    else if SortCompare(sort, circuitOf(t[|t| - 1]), circuitOf(x)) <= 0 then t + [x]
    else Insert(x, t[..|t| - 1], circuitOf, sort) + [t[|t| - 1]]
  }

  /**
   * `[...s].sort(sortFn)`: `Array.prototype.sort` is stable, and for a consistent comparator
   * a stable sort has exactly one possible result, which this insertion sort produces.
   */
  function SortBy<T>(s: seq<T>, circuitOf: T -> Circuit, sort: CircuitSort): (r: seq<T>)
    ensures |r| == |s|
  {
    if s == [] then [] else Insert(s[|s| - 1], SortBy(s[..|s| - 1], circuitOf, sort), circuitOf, sort)
  }

  /** No element sorts after a later one. */
  predicate SortedBy<T>(s: seq<T>, circuitOf: T -> Circuit, sort: CircuitSort) {
    forall i, j :: 0 <= i < j < |s| ==> SortCompare(sort, circuitOf(s[i]), circuitOf(s[j])) <= 0
  }

  /** The elements of `s` that tie with `k`, in order. */
  function TiesWith<T>(s: seq<T>, circuitOf: T -> Circuit, sort: CircuitSort, k: Circuit): (r: seq<T>) {
    if s == [] then []
    else
      var x := s[|s| - 1];
      TiesWith(s[..|s| - 1], circuitOf, sort, k) + (if SortCompare(sort, circuitOf(x), k) == 0 then [x] else [])
  }

  lemma {:induction false} InsertPermutation<T>(x: T, t: seq<T>, circuitOf: T -> Circuit, sort: CircuitSort)
    ensures multiset(Insert(x, t, circuitOf, sort)) == multiset(t) + multiset{x}
  {
    if t != [] && SortCompare(sort, circuitOf(t[|t| - 1]), circuitOf(x)) > 0 {
      InsertPermutation(x, t[..|t| - 1], circuitOf, sort);
      assert t == t[..|t| - 1] + [t[|t| - 1]];
    }
  }

  lemma {:induction false} InsertSorted<T>(x: T, t: seq<T>, circuitOf: T -> Circuit, sort: CircuitSort)
    requires SortedBy(t, circuitOf, sort)
    ensures SortedBy(Insert(x, t, circuitOf, sort), circuitOf, sort)
  {
    if t != [] {
      var last := t[|t| - 1];
      var init := t[..|t| - 1];
      if SortCompare(sort, circuitOf(last), circuitOf(x)) <= 0 {
        forall i | 0 <= i < |t| ensures SortCompare(sort, circuitOf(t[i]), circuitOf(x)) <= 0 {
          if i < |t| - 1 {
            SortCompareTransitive(sort, circuitOf(t[i]), circuitOf(last), circuitOf(x));
          }
        }
      } else {
        InsertSorted(x, init, circuitOf, sort);
        InsertPermutation(x, init, circuitOf, sort);
        var r := Insert(x, init, circuitOf, sort);
        SortCompareAntisymmetric(sort, circuitOf(last), circuitOf(x));
        forall i | 0 <= i < |r| ensures SortCompare(sort, circuitOf(r[i]), circuitOf(last)) <= 0 {
          assert r[i] in multiset(r);
          if r[i] != x {
            assert r[i] in multiset(init);
            var j :| 0 <= j < |init| && init[j] == r[i];
            assert t[j] == r[i];
          }
        }
      }
    }
  }

  lemma {:induction false} InsertTies<T>(x: T, t: seq<T>, circuitOf: T -> Circuit, sort: CircuitSort, k: Circuit)
    ensures TiesWith(Insert(x, t, circuitOf, sort), circuitOf, sort, k) ==
            TiesWith(t, circuitOf, sort, k) + (if SortCompare(sort, circuitOf(x), k) == 0 then [x] else [])
  {
    if t == [] {
      assert [x][..0] == [];
    } else {
      var last := t[|t| - 1];
      var init := t[..|t| - 1];
      if SortCompare(sort, circuitOf(last), circuitOf(x)) <= 0 {
        assert (t + [x])[..|t|] == t;
      } else {
        InsertTies(x, init, circuitOf, sort, k);
        var r := Insert(x, init, circuitOf, sort);
        assert (r + [last])[..|r|] == r;
        if SortCompare(sort, circuitOf(x), k) == 0 && SortCompare(sort, circuitOf(last), k) == 0 {
          SortCompareTies(sort, circuitOf(last), circuitOf(x), k);
        }
      }
    }
  }

  /** The sort keeps every element, and no other. */
  lemma {:induction false} SortByPermutation<T>(s: seq<T>, circuitOf: T -> Circuit, sort: CircuitSort)
    ensures multiset(SortBy(s, circuitOf, sort)) == multiset(s)
  {
    if s != [] {
      var init, x := s[..|s| - 1], s[|s| - 1];
      SortByPermutation(init, circuitOf, sort);
      InsertPermutation(x, SortBy(init, circuitOf, sort), circuitOf, sort);
      MultisetOfSnoc(s);
    }
  }

  lemma MultisetOfSnoc<T>(s: seq<T>)
    requires s != []
    ensures multiset(s) == multiset(s[..|s| - 1]) + multiset{s[|s| - 1]}
  {
    assert s == s[..|s| - 1] + [s[|s| - 1]];
  }

  lemma {:induction false} SortBySorted<T>(s: seq<T>, circuitOf: T -> Circuit, sort: CircuitSort)
    ensures SortedBy(SortBy(s, circuitOf, sort), circuitOf, sort)
  {
    if s != [] {
      SortBySorted(s[..|s| - 1], circuitOf, sort);
      InsertSorted(s[|s| - 1], SortBy(s[..|s| - 1], circuitOf, sort), circuitOf, sort);
    }
  }

  /** Elements that tie keep their relative order. */
  lemma {:induction false} SortByStable<T>(s: seq<T>, circuitOf: T -> Circuit, sort: CircuitSort, k: Circuit)
    ensures TiesWith(SortBy(s, circuitOf, sort), circuitOf, sort, k) == TiesWith(s, circuitOf, sort, k)
  {
    if s != [] {
      SortByStable(s[..|s| - 1], circuitOf, sort, k);
      InsertTies(s[|s| - 1], SortBy(s[..|s| - 1], circuitOf, sort), circuitOf, sort, k);
    }
  }

  /** `sortCircuits`: fresh sorted copies of the three buckets, modified entries ordered by their circuit. */
  function SortCircuits(comparison: Comparison, sort: CircuitSort): (r: Comparison)
    ensures |r.added| == |comparison.added| && |r.removed| == |comparison.removed| && |r.modified| == |comparison.modified|
  {
    Comparison(
      SortBy(comparison.added, Self, sort),
      SortBy(comparison.removed, Self, sort),
      SortBy(comparison.modified, EntryCircuit, sort))
  }

  /**
   * Each sorted bucket is a permutation of the original bucket, in comparator order, with
   * ties in their original order.
   */
  lemma SortCircuitsCorrect(comparison: Comparison, sort: CircuitSort, k: Circuit)
    ensures multiset(SortCircuits(comparison, sort).added) == multiset(comparison.added)
    ensures multiset(SortCircuits(comparison, sort).removed) == multiset(comparison.removed)
    ensures multiset(SortCircuits(comparison, sort).modified) == multiset(comparison.modified)
    ensures SortedBy(SortCircuits(comparison, sort).added, Self, sort)
    ensures SortedBy(SortCircuits(comparison, sort).removed, Self, sort)
    ensures SortedBy(SortCircuits(comparison, sort).modified, EntryCircuit, sort)
    ensures TiesWith(SortCircuits(comparison, sort).added, Self, sort, k) == TiesWith(comparison.added, Self, sort, k)
    ensures TiesWith(SortCircuits(comparison, sort).removed, Self, sort, k) == TiesWith(comparison.removed, Self, sort, k)
    ensures TiesWith(SortCircuits(comparison, sort).modified, EntryCircuit, sort, k) == TiesWith(comparison.modified, EntryCircuit, sort, k)
  {
    SortByPermutation(comparison.added, Self, sort);
    SortByPermutation(comparison.removed, Self, sort);
    SortByPermutation(comparison.modified, EntryCircuit, sort);
    SortBySorted(comparison.added, Self, sort);
    SortBySorted(comparison.removed, Self, sort);
    SortBySorted(comparison.modified, EntryCircuit, sort);
    SortByStable(comparison.added, Self, sort, k);
    SortByStable(comparison.removed, Self, sort, k);
    SortByStable(comparison.modified, EntryCircuit, sort, k);
  }

  /** Sorting by cost orders the costs up for `asc` and down for `desc`. */
  lemma SortByCostOrder(s: seq<Circuit>, direction: SortDirection)
    ensures var r := SortBy(s, Self, CircuitSort(SortMonthlyCost, direction));
      forall i, j :: 0 <= i < j < |r| ==>
        if direction == Asc then r[i].monthlyCost <= r[j].monthlyCost else r[i].monthlyCost >= r[j].monthlyCost
  {
    SortBySorted(s, Self, CircuitSort(SortMonthlyCost, direction));
  }

  /** Sorting by a text field orders its lower-cased text up for `asc` and down for `desc`. */
  lemma SortByTextOrder(s: seq<Circuit>, field: SortField, direction: SortDirection)
    requires field != SortMonthlyCost
    ensures var r := SortBy(s, Self, CircuitSort(field, direction));
      forall i, j :: 0 <= i < j < |r| ==>
        if direction == Asc then Text.Compare(Text.Lower(SortText(field, r[i])), Text.Lower(SortText(field, r[j]))) <= 0
        else Text.Compare(Text.Lower(SortText(field, r[i])), Text.Lower(SortText(field, r[j]))) >= 0
  {
    var sort := CircuitSort(field, direction);
    SortBySorted(s, Self, sort);
    var r := SortBy(s, Self, sort);
    forall i, j | 0 <= i < j < |r|
      ensures if direction == Asc then Text.Compare(Text.Lower(SortText(field, r[i])), Text.Lower(SortText(field, r[j]))) <= 0
              else Text.Compare(Text.Lower(SortText(field, r[i])), Text.Lower(SortText(field, r[j]))) >= 0
    {
      assert SortCompare(sort, r[i], r[j]) <= 0;
      Text.CompareAntisymmetric(Text.Lower(SortText(field, r[i])), Text.Lower(SortText(field, r[j])));
    }
  }

  /** Sorting does not change the cost impact. */
  lemma SortKeepsCostImpact(comparison: Comparison, sort: CircuitSort)
    ensures CalculateCostImpact(SortCircuits(comparison, sort)) == CalculateCostImpact(comparison)
  {
    SortByPermutation(comparison.added, Self, sort);
    SortByPermutation(comparison.removed, Self, sort);
    SortByPermutation(comparison.modified, EntryCircuit, sort);
    SumPermutation(SortBy(comparison.added, Self, sort), comparison.added, MonthlyCostOf);
    SumPermutation(SortBy(comparison.added, Self, sort), comparison.added, InstallationCostOf);
    SumPermutation(SortBy(comparison.removed, Self, sort), comparison.removed, MonthlyCostOf);
    SumPermutation(SortBy(comparison.modified, EntryCircuit, sort), comparison.modified, ModifiedCostDelta);
  }
}
