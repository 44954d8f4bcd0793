/**
 * The comparison engine of `circuitUtils`: the id map, the field-by-field difference
 * list, the added / removed / modified partition, the display form of a difference and
 * the cost impact of a comparison.
 */
module CircuitUtils {
  import opened Wrappers
  import opened Numbers
  import opened Seqs
  import opened Circuits
  import Text

  // ---------------------------------------------------------------------------
  // createCircuitMap

  /** `new Map(circuits.map(c => [c.id, c]))`: a later circuit overwrites an earlier one of the same id. */
  function CircuitMap(cs: seq<Circuit>): (m: map<string, Circuit>)
    ensures m.Keys == Ids(cs)
    ensures forall id :: id in m ==> m[id] in cs && m[id].id == id
  {
    if cs == [] then map[]
    else
      var init := cs[..|cs| - 1];
      assert Ids(cs) == Ids(init) + {cs[|cs| - 1].id} by {
        assert cs == init + [cs[|cs| - 1]];
      }
      CircuitMap(init)[cs[|cs| - 1].id := cs[|cs| - 1]]
  }

  /** The map holds, for each id, the last circuit of the list carrying it. */
  lemma {:induction false} CircuitMapLastWins(cs: seq<Circuit>, i: int)
    requires 0 <= i < |cs|
    requires forall j :: i < j < |cs| ==> cs[j].id != cs[i].id
    ensures cs[i].id in CircuitMap(cs) && CircuitMap(cs)[cs[i].id] == cs[i]
  {
    if i < |cs| - 1 {
      var init := cs[..|cs| - 1];
      CircuitMapLastWins(init, i);
    }
  }

  /** With unique ids every circuit is found under its own id. */
  lemma CircuitMapUnique(cs: seq<Circuit>, i: int)
    requires UniqueIds(cs) && 0 <= i < |cs|
    ensures CircuitMap(cs)[cs[i].id] == cs[i]
  {
    CircuitMapLastWins(cs, i);
  }

  // ---------------------------------------------------------------------------
  // compareCircuitFields

  /** The differences over a list of fields, in the order of that list. */
  function DiffsOver(fields: seq<Field>, active: Circuit, proposed: Circuit): (r: seq<Difference>) {
    if fields == [] then []
    else
      var f := fields[|fields| - 1];
      DiffsOver(fields[..|fields| - 1], active, proposed) +
      (if GetField(active, f) != GetField(proposed, f)
       then [Difference(f, GetField(active, f), GetField(proposed, f))] else [])
  }

  /** The differences over the tracked fields. */
  function Differences(active: Circuit, proposed: Circuit): (r: seq<Difference>)
    ensures forall k :: 0 <= k < |r| ==> IsDifferenceOf(r[k], active, proposed)
    ensures InFieldOrder(r)
  {
    var n := |ComparisonFields|;
    assert ComparisonFields[..n] == ComparisonFields;
    DiffsPrefixSound(active, proposed, n);
    DiffsPrefixOrdered(active, proposed, n);
    DiffsOver(ComparisonFields[..n], active, proposed)
  }

  /** The reduce over `COMPARISON_FIELDS`, pushing a difference for each strictly unequal field. */
  method CompareCircuitFields(active: Circuit, proposed: Circuit) returns (differences: seq<Difference>)
    ensures differences == Differences(active, proposed)
  {
    differences := [];
    var i := 0;
    while i < |ComparisonFields|
      invariant 0 <= i <= |ComparisonFields|
      invariant differences == DiffsOver(ComparisonFields[..i], active, proposed)
    {
      var field := ComparisonFields[i];
      if GetField(active, field) != GetField(proposed, field) {
        differences := differences + [Difference(field, GetField(active, field), GetField(proposed, field))];
      }
      assert ComparisonFields[..i + 1][..i] == ComparisonFields[..i];
      i := i + 1;
    }
    assert ComparisonFields[..i] == ComparisonFields;
  }

  /** A difference records a tracked field, its two values, and those values differ. */
  predicate IsDifferenceOf(d: Difference, active: Circuit, proposed: Circuit) {
    Rank(d.field) >= 0 &&
    d.oldValue == GetField(active, d.field) &&
    d.newValue == GetField(proposed, d.field) &&
    d.oldValue != d.newValue
  }

  /** The list follows the tracked-field order strictly. */
  predicate InFieldOrder(ds: seq<Difference>) {
    forall k, l :: 0 <= k < l < |ds| ==> Rank(ds[k].field) < Rank(ds[l].field)
  }

  lemma RankAt(i: int)
    requires 0 <= i < |ComparisonFields|
    ensures Rank(ComparisonFields[i]) == i
  {
  }

  /** One step of `DiffsOver`: the list grows by at most the difference on the last field. */
  lemma DiffsOverStep(active: Circuit, proposed: Circuit, i: int)
    requires 0 < i <= |ComparisonFields|
    ensures DiffsOver(ComparisonFields[..i], active, proposed) ==
            DiffsOver(ComparisonFields[..i - 1], active, proposed) +
            (if GetField(active, ComparisonFields[i - 1]) != GetField(proposed, ComparisonFields[i - 1])
             then [Difference(ComparisonFields[i - 1], GetField(active, ComparisonFields[i - 1]), GetField(proposed, ComparisonFields[i - 1]))]
             else [])
  {
    assert ComparisonFields[..i][..i - 1] == ComparisonFields[..i - 1];
  }

  /** Every entry over the first `i` tracked fields is a true difference on one of them. */
  lemma {:induction false} DiffsPrefixSound(active: Circuit, proposed: Circuit, i: int)
    requires 0 <= i <= |ComparisonFields|
    ensures forall k :: 0 <= k < |DiffsOver(ComparisonFields[..i], active, proposed)| ==>
              IsDifferenceOf(DiffsOver(ComparisonFields[..i], active, proposed)[k], active, proposed) &&
              Rank(DiffsOver(ComparisonFields[..i], active, proposed)[k].field) < i
  {
    if i > 0 {
      DiffsPrefixSound(active, proposed, i - 1);
      DiffsOverStep(active, proposed, i);
      RankAt(i - 1);
    }
  }

  /** The entries over the first `i` tracked fields follow the field order. */
  lemma {:induction false} DiffsPrefixOrdered(active: Circuit, proposed: Circuit, i: int)
    requires 0 <= i <= |ComparisonFields|
    ensures InFieldOrder(DiffsOver(ComparisonFields[..i], active, proposed))
  {
    if i > 0 {
      DiffsPrefixOrdered(active, proposed, i - 1);
      DiffsPrefixSound(active, proposed, i - 1);
      DiffsOverStep(active, proposed, i);
      RankAt(i - 1);
    }
  }

  /** Every tracked field among the first `i` whose values differ has an entry. */
  lemma {:induction false} DiffsPrefixComplete(active: Circuit, proposed: Circuit, i: int, f: Field)
    requires 0 <= i <= |ComparisonFields|
    requires 0 <= Rank(f) < i && GetField(active, f) != GetField(proposed, f)
    ensures exists k :: 0 <= k < |DiffsOver(ComparisonFields[..i], active, proposed)| &&
                        DiffsOver(ComparisonFields[..i], active, proposed)[k].field == f
  {
    if Rank(f) == i - 1 {
      DiffOnLastField(active, proposed, i, f);
    } else {
      DiffsPrefixComplete(active, proposed, i - 1, f);
      DiffsPrefixKept(active, proposed, i, f);
    }
  }

  lemma DiffOnLastField(active: Circuit, proposed: Circuit, i: int, f: Field)
    requires 0 < i <= |ComparisonFields|
    requires Rank(f) == i - 1 && GetField(active, f) != GetField(proposed, f)
    ensures var ds := DiffsOver(ComparisonFields[..i], active, proposed); ds != [] && ds[|ds| - 1].field == f
  {
    DiffsOverStep(active, proposed, i);
  }

  /** Some entry of `ds` is about field `f`. */
  predicate HasDiffOn(ds: seq<Difference>, f: Field) {
    exists k :: 0 <= k < |ds| && ds[k].field == f
  }

  lemma DiffsPrefixKept(active: Circuit, proposed: Circuit, i: int, f: Field)
    requires 0 < i <= |ComparisonFields|
    requires HasDiffOn(DiffsOver(ComparisonFields[..i - 1], active, proposed), f)
    ensures HasDiffOn(DiffsOver(ComparisonFields[..i], active, proposed), f)
  {
    DiffsOverStep(active, proposed, i);
    var prev := DiffsOver(ComparisonFields[..i - 1], active, proposed);
    var k :| 0 <= k < |prev| && prev[k].field == f;
    assert DiffsOver(ComparisonFields[..i], active, proposed)[k].field == f;
  }

  /**
   * `compareCircuitFields` lists exactly the tracked fields whose values are strictly
   * unequal, in `COMPARISON_FIELDS` order, each with its active and proposed value.
   */
  lemma DifferencesCharacterised(active: Circuit, proposed: Circuit)
    ensures forall d :: d in Differences(active, proposed) ==> IsDifferenceOf(d, active, proposed)
    ensures InFieldOrder(Differences(active, proposed))
    ensures forall f :: (exists k :: 0 <= k < |Differences(active, proposed)| && Differences(active, proposed)[k].field == f)
                        <==> (f in ComparisonFields && GetField(active, f) != GetField(proposed, f))
  {
    var n := |ComparisonFields|;
    assert ComparisonFields[..n] == ComparisonFields;
    DiffsPrefixSound(active, proposed, n);
    DiffsPrefixOrdered(active, proposed, n);
    var ds := Differences(active, proposed);
    forall f | f in ComparisonFields && GetField(active, f) != GetField(proposed, f)
      ensures exists k :: 0 <= k < |ds| && ds[k].field == f
    {
      DiffsPrefixComplete(active, proposed, n, f);
    }
    forall f | exists k :: 0 <= k < |ds| && ds[k].field == f
      ensures f in ComparisonFields && GetField(active, f) != GetField(proposed, f)
    {
      var k :| 0 <= k < |ds| && ds[k].field == f;
      assert IsDifferenceOf(ds[k], active, proposed);
    }
  }

  /** No difference is ever reported on status, notes, id, location or the dates. */
  lemma UntrackedNeverDiffer(active: Circuit, proposed: Circuit, d: Difference)
    requires d in Differences(active, proposed)
    ensures d.field != Status && d.field != Notes && d.field != Id && d.field != LocationId
    ensures d.field != ContractStartDate && d.field != ContractEndDate
    ensures d.field != CreatedAt && d.field != UpdatedAt
  {
    DifferencesCharacterised(active, proposed);
  }

  /** The difference list is empty exactly when every tracked field agrees. */
  lemma DifferencesEmptyIff(active: Circuit, proposed: Circuit)
    ensures Differences(active, proposed) == [] <==>
            forall f :: f in ComparisonFields ==> GetField(active, f) == GetField(proposed, f)
  {
    DifferencesCharacterised(active, proposed);
    var ds := Differences(active, proposed);
    if ds != [] {
      assert IsDifferenceOf(ds[0], active, proposed);
      assert ComparisonFields[Rank(ds[0].field)] == ds[0].field;
    }
  }

  // ---------------------------------------------------------------------------
  // compareCircuits

  /** The circuits whose id is not among `ids`, in order: `added` against the active ids, `removed` against the proposed ids. */
  function Unmatched(cs: seq<Circuit>, ids: set<string>): (r: seq<Circuit>)
    ensures |r| <= |cs|
    ensures forall i :: 0 <= i < |r| ==> r[i].id !in ids
  {
    if cs == [] then []
    else
      var c := cs[|cs| - 1];
      Unmatched(cs[..|cs| - 1], ids) + (if c.id !in ids then [c] else [])
  }

  /** The proposed circuits found in the active map with a non-empty difference list, in order. */
  function ModifiedOf(proposed: seq<Circuit>, activeMap: map<string, Circuit>): (r: seq<ModifiedEntry>)
    ensures |r| <= |proposed|
  {
    if proposed == [] then []
    else
      var p := proposed[|proposed| - 1];
      ModifiedOf(proposed[..|proposed| - 1], activeMap) +
      (if p.id in activeMap && Differences(activeMap[p.id], p) != []
       then [ModifiedEntry(p, Differences(activeMap[p.id], p))] else [])
  }

  lemma UnmatchedStep(cs: seq<Circuit>, i: int, ids: set<string>)
    requires 0 <= i < |cs|
    ensures Unmatched(cs[..i + 1], ids) == Unmatched(cs[..i], ids) + (if cs[i].id !in ids then [cs[i]] else [])
  {
    assert cs[..i + 1][..i] == cs[..i];
  }

  lemma ModifiedStep(proposed: seq<Circuit>, i: int, activeMap: map<string, Circuit>)
    requires 0 <= i < |proposed|
    ensures ModifiedOf(proposed[..i + 1], activeMap) == ModifiedOf(proposed[..i], activeMap) +
      (if proposed[i].id in activeMap && Differences(activeMap[proposed[i].id], proposed[i]) != []
       then [ModifiedEntry(proposed[i], Differences(activeMap[proposed[i].id], proposed[i]))] else [])
  {
    assert proposed[..i + 1][..i] == proposed[..i];
  }

  /** The comparison `compareCircuits` builds. */
  function Compare(active: seq<Circuit>, proposed: seq<Circuit>): (r: Comparison)
    ensures |r.added| <= |proposed| && |r.removed| <= |active| && |r.modified| <= |proposed|
    ensures forall c :: c in r.added ==> c in proposed && c.id !in Ids(active)
    ensures forall c :: c in r.removed ==> c in active && c.id !in Ids(proposed)
    ensures forall e :: e in r.modified ==> e.circuit in proposed && e.circuit.id in Ids(active) && e.differences != []
  {
    forall c | c in Unmatched(proposed, Ids(active)) ensures c in proposed && c.id !in Ids(active) {
      UnmatchedMembers(proposed, Ids(active), c);
    }
    forall c | c in Unmatched(active, Ids(proposed)) ensures c in active && c.id !in Ids(proposed) {
      UnmatchedMembers(active, Ids(proposed), c);
    }
    forall e | e in ModifiedOf(proposed, CircuitMap(active))
      ensures e.circuit in proposed && e.circuit.id in Ids(active) && e.differences != []
    {
      ModifiedMembers(proposed, CircuitMap(active), e);
    }
    Comparison(
      Unmatched(proposed, Ids(active)),
      Unmatched(active, Ids(proposed)),
      ModifiedOf(proposed, CircuitMap(active)))
  }

  /** The two `forEach` passes over the proposed and then the active circuits. */
  method CompareCircuits(activeCircuits: seq<Circuit>, proposedCircuits: seq<Circuit>) returns (comparison: Comparison)
    ensures comparison == Compare(activeCircuits, proposedCircuits)
  {
    var added: seq<Circuit> := [];
    var removed: seq<Circuit> := [];
    var modified: seq<ModifiedEntry> := [];
    var activeMap := CircuitMap(activeCircuits);
    var proposedMap := CircuitMap(proposedCircuits);
    ghost var activeIds := Ids(activeCircuits);
    ghost var proposedIds := Ids(proposedCircuits);

    var i := 0;
    while i < |proposedCircuits|
      invariant 0 <= i <= |proposedCircuits|
      invariant added == Unmatched(proposedCircuits[..i], activeIds)
      invariant modified == ModifiedOf(proposedCircuits[..i], activeMap)
    {
      var proposed := proposedCircuits[i];
      UnmatchedStep(proposedCircuits, i, activeIds);
      ModifiedStep(proposedCircuits, i, activeMap);
      if proposed.id !in activeMap {
        added := added + [proposed];
      } else {
        var differences := CompareCircuitFields(activeMap[proposed.id], proposed);
        if |differences| > 0 {
          modified := modified + [ModifiedEntry(proposed, differences)];
        }
      }
      i := i + 1;
    }
    assert proposedCircuits[..i] == proposedCircuits;

    var j := 0;
    while j < |activeCircuits|
      invariant 0 <= j <= |activeCircuits|
      invariant removed == Unmatched(activeCircuits[..j], proposedIds)
    {
      var active := activeCircuits[j];
      UnmatchedStep(activeCircuits, j, proposedIds);
      if active.id !in proposedMap {
        removed := removed + [active];
      }
      j := j + 1;
    }
    assert activeCircuits[..j] == activeCircuits;
    comparison := Comparison(added, removed, modified);
  }

  /** The circuits of a list of modified entries. */
  function EntryCircuits(es: seq<ModifiedEntry>): (r: seq<Circuit>)
    ensures |r| == |es| && forall k :: 0 <= k < |es| ==> r[k] == es[k].circuit
  {
    if es == [] then [] else EntryCircuits(es[..|es| - 1]) + [es[|es| - 1].circuit]
  }

  lemma {:induction false} UnmatchedMembers(cs: seq<Circuit>, ids: set<string>, c: Circuit)
    ensures c in Unmatched(cs, ids) <==> c in cs && c.id !in ids
    ensures multiset(Unmatched(cs, ids))[c] == if c.id !in ids then multiset(cs)[c] else 0
  {
    if cs != [] {
      UnmatchedMembers(cs[..|cs| - 1], ids, c);
      assert cs == cs[..|cs| - 1] + [cs[|cs| - 1]];
    }
  }

  lemma {:induction false} UnmatchedSubsequence(cs: seq<Circuit>, ids: set<string>)
    ensures IsSubsequence(Unmatched(cs, ids), cs)
  {
    if cs != [] {
      var init := cs[..|cs| - 1];
      UnmatchedSubsequence(init, ids);
      var u := Unmatched(cs, ids);
      if cs[|cs| - 1].id !in ids {
        assert u[..|u| - 1] == Unmatched(init, ids);
      } else {
        assert u == Unmatched(init, ids);
        if u != [] {
          assert IsSubsequence(u, init);
        }
      }
    }
  }

  /** When no id is excluded the list comes back whole. */
  lemma {:induction false} UnmatchedAll(cs: seq<Circuit>, ids: set<string>)
    requires forall c :: c in cs ==> c.id !in ids
    ensures Unmatched(cs, ids) == cs
  {
    if cs != [] {
      UnmatchedAll(cs[..|cs| - 1], ids);
      assert cs[|cs| - 1] in cs;
    }
  }

  /** When every id is excluded nothing is left. */
  lemma {:induction false} UnmatchedNone(cs: seq<Circuit>, ids: set<string>)
    requires Ids(cs) <= ids
    ensures Unmatched(cs, ids) == []
  {
    if cs != [] {
      var init := cs[..|cs| - 1];
      assert Ids(init) <= Ids(cs) by {
        forall id | id in Ids(init) ensures id in Ids(cs) {
          var c :| c in init && c.id == id;
          assert c in cs;
        }
      }
      UnmatchedNone(init, ids);
      assert cs[|cs| - 1] in cs;
    }
  }

  lemma {:induction false} ModifiedMembers(ps: seq<Circuit>, m: map<string, Circuit>, e: ModifiedEntry)
    ensures e in ModifiedOf(ps, m) <==>
            e.circuit in ps && e.circuit.id in m &&
            e.differences == Differences(m[e.circuit.id], e.circuit) && e.differences != []
    ensures multiset(ModifiedOf(ps, m))[e] ==
            if e.circuit.id in m && e.differences == Differences(m[e.circuit.id], e.circuit) && e.differences != []
            then multiset(ps)[e.circuit] else 0
  {
    if ps != [] {
      ModifiedMembers(ps[..|ps| - 1], m, e);
      Snoc(ps);
    }
  }

  lemma {:induction false} ModifiedSubsequence(ps: seq<Circuit>, m: map<string, Circuit>)
    ensures IsSubsequence(EntryCircuits(ModifiedOf(ps, m)), ps)
  {
    if ps != [] {
      var init := ps[..|ps| - 1];
      ModifiedSubsequence(init, m);
      var p := ps[|ps| - 1];
      var u := EntryCircuits(ModifiedOf(ps, m));
      if p.id in m && Differences(m[p.id], p) != [] {
        assert ModifiedOf(ps, m)[..|ModifiedOf(ps, m)| - 1] == ModifiedOf(init, m);
        assert u[..|u| - 1] == EntryCircuits(ModifiedOf(init, m));
      } else {
        assert ModifiedOf(ps, m) == ModifiedOf(init, m);
        if u != [] {
          assert IsSubsequence(u, init);
        }
      }
    }
  }

  /** No entry of a map built from the same list differs from its circuit. */
  lemma {:induction false} ModifiedOfOwnMap(xs: seq<Circuit>, ps: seq<Circuit>)
    requires UniqueIds(xs)
    requires forall p :: p in ps ==> p in xs
    ensures ModifiedOf(ps, CircuitMap(xs)) == []
  {
    if ps != [] {
      ModifiedOfOwnMap(xs, ps[..|ps| - 1]);
      var p := ps[|ps| - 1];
      assert p in ps;
      var i :| 0 <= i < |xs| && xs[i] == p;
      CircuitMapUnique(xs, i);
      DifferencesEmptyIff(p, p);
    }
  }

  /**
   * The three buckets of `compareCircuits`: a proposed circuit with no active counterpart
   * is added; an active circuit with no proposed counterpart is removed; a proposed circuit
   * whose id is active is modified, against the active circuit the map keeps for that id,
   * exactly when the difference list is non-empty. Each bucket keeps its input's order.
   */
  lemma CompareBuckets(active: seq<Circuit>, proposed: seq<Circuit>)
    ensures forall c :: c in Compare(active, proposed).added <==> c in proposed && c.id !in Ids(active)
    ensures forall c :: c in Compare(active, proposed).removed <==> c in active && c.id !in Ids(proposed)
    ensures forall e :: e in Compare(active, proposed).modified <==>
              e.circuit in proposed && e.circuit.id in Ids(active) &&
              e.differences == Differences(CircuitMap(active)[e.circuit.id], e.circuit) &&
              e.differences != []
    ensures IsSubsequence(Compare(active, proposed).added, proposed)
    ensures IsSubsequence(Compare(active, proposed).removed, active)
    ensures IsSubsequence(EntryCircuits(Compare(active, proposed).modified), proposed)
    ensures forall c :: multiset(Compare(active, proposed).added)[c] ==
              if c.id !in Ids(active) then multiset(proposed)[c] else 0
    ensures forall c :: multiset(Compare(active, proposed).removed)[c] ==
              if c.id !in Ids(proposed) then multiset(active)[c] else 0
    ensures forall e :: multiset(Compare(active, proposed).modified)[e] ==
              if e.circuit.id in Ids(active) && e.differences == Differences(CircuitMap(active)[e.circuit.id], e.circuit) &&
                 e.differences != []
              then multiset(proposed)[e.circuit] else 0
  {
    forall c ensures c in Compare(active, proposed).added <==> c in proposed && c.id !in Ids(active)
      ensures multiset(Compare(active, proposed).added)[c] == if c.id !in Ids(active) then multiset(proposed)[c] else 0
    {
      UnmatchedMembers(proposed, Ids(active), c);
    }
    forall c ensures c in Compare(active, proposed).removed <==> c in active && c.id !in Ids(proposed)
      ensures multiset(Compare(active, proposed).removed)[c] == if c.id !in Ids(proposed) then multiset(active)[c] else 0
    {
      UnmatchedMembers(active, Ids(proposed), c);
    }
    forall e ensures e in Compare(active, proposed).modified <==>
              e.circuit in proposed && e.circuit.id in Ids(active) &&
              e.differences == Differences(CircuitMap(active)[e.circuit.id], e.circuit) &&
              e.differences != []
      ensures multiset(Compare(active, proposed).modified)[e] ==
              if e.circuit.id in Ids(active) && e.differences == Differences(CircuitMap(active)[e.circuit.id], e.circuit) &&
                 e.differences != []
              then multiset(proposed)[e.circuit] else 0
    {
      ModifiedMembers(proposed, CircuitMap(active), e);
    }
    UnmatchedSubsequence(proposed, Ids(active));
    UnmatchedSubsequence(active, Ids(proposed));
    ModifiedSubsequence(proposed, CircuitMap(active));
  }

  /** No id lands in two buckets. */
  lemma CompareDisjoint(active: seq<Circuit>, proposed: seq<Circuit>)
    ensures forall a, r :: a in Compare(active, proposed).added && r in Compare(active, proposed).removed ==> a.id != r.id
    ensures forall a, e :: a in Compare(active, proposed).added && e in Compare(active, proposed).modified ==> a.id != e.circuit.id
    ensures forall r, e :: r in Compare(active, proposed).removed && e in Compare(active, proposed).modified ==> r.id != e.circuit.id
  {
    CompareBuckets(active, proposed);
    forall a, r | a in Compare(active, proposed).added && r in Compare(active, proposed).removed
      ensures a.id != r.id
    {
      assert a.id in Ids(proposed);
    }
    forall r, e | r in Compare(active, proposed).removed && e in Compare(active, proposed).modified
      ensures r.id != e.circuit.id
    {
      assert e.circuit.id in Ids(proposed);
    }
  }

  /** Against no active circuits everything proposed is added; with nothing proposed everything active is removed. */
  lemma CompareAgainstEmpty(circuits: seq<Circuit>)
    ensures Compare([], circuits) == Comparison(circuits, [], [])
    ensures Compare(circuits, []) == Comparison([], circuits, [])
  {
    UnmatchedAll(circuits, Ids([]));
    ModifiedOfEmptyMap(circuits);
  }

  lemma {:induction false} ModifiedOfEmptyMap(ps: seq<Circuit>)
    ensures ModifiedOf(ps, map[]) == []
  {
    if ps != [] {
      ModifiedOfEmptyMap(ps[..|ps| - 1]);
    }
  }

  /** A list of circuits with distinct ids compared with itself shows no change. */
  lemma CompareSelf(circuits: seq<Circuit>)
    requires UniqueIds(circuits)
    ensures Compare(circuits, circuits) == Comparison([], [], [])
  {
    UnmatchedNone(circuits, Ids(circuits));
    ModifiedOfOwnMap(circuits, circuits);
  }

  // ---------------------------------------------------------------------------
  // formatDifference

  /** The separator literal of `formatDifference`: U+00E2 U+2020 U+2019, the arrow's UTF-8 bytes read as Windows-1252. */
  const Separator: string := [' ', '\U{E2}', '\U{2020}', '\U{2019}', ' ']

  /** One `formatValue` call: Yes/No, a `$`-prefixed grouped cost, a plain number, or the value itself. */
  function FormatValue(field: Field, v: Value): (r: string)
    ensures v.Num? && (field == MonthlyCost || field == InstallationCost) ==>
              |r| >= 1 && r[0] == '$' && ParseInt(RemoveCommas(r[1..])) == Some(v.n)
    ensures v.Num? && field != MonthlyCost && field != InstallationCost ==> ParseInt(r) == Some(v.n)
    ensures v.Num? && (field == MonthlyCost || field == InstallationCost) ==> r == "$" + Grouped(v.n)
    ensures v.Num? && field != MonthlyCost && field != InstallationCost ==> r == IntToString(v.n)
    ensures v.Bool? ==> r == (if v.b then "Yes" else "No")
    ensures v.Str? ==> r == v.s
    ensures v.Null? ==> r == "null"
  {
    match v
    case Bool(b) => if b then "Yes" else "No"
    case Num(n) => FormatNumber(field, n)
    case Str(s) => s
    case Null => "null"
  }

  /** The number branch of `formatValue`: a cost as `$` and its en-US grouping, anything else as plain digits. */
  function FormatNumber(field: Field, n: int): (r: string)
    ensures field == MonthlyCost || field == InstallationCost ==>
              |r| >= 1 && r[0] == '$' && ParseInt(RemoveCommas(r[1..])) == Some(n)
    ensures field != MonthlyCost && field != InstallationCost ==> ParseInt(r) == Some(n)
    ensures field == MonthlyCost || field == InstallationCost ==> r == "$" + Grouped(n)
    ensures field != MonthlyCost && field != InstallationCost ==> r == IntToString(n)
  {
    ParseIntToString(n, []);
    assert IntToString(n) + [] == IntToString(n);
    if field == MonthlyCost || field == InstallationCost then
      SignedGroupedDigits(n);
      assert ("$" + Grouped(n))[1..] == Grouped(n);
      "$" + Grouped(n)
    else IntToString(n)
  }

  /** `${field}: ${old} <separator> ${new}`: the field name, then the old value, the separator and the new value. */
  function FormatDifference(d: Difference): (r: string)
    ensures var head := FieldName(d.field) + ": " + FormatValue(d.field, d.oldValue);
      |r| == |head| + |Separator| + |FormatValue(d.field, d.newValue)| &&
      r[..|head|] == head && r[|head|..|head| + |Separator|] == Separator &&
      r[|head| + |Separator|..] == FormatValue(d.field, d.newValue)
  {
    var head := FieldName(d.field) + ": " + FormatValue(d.field, d.oldValue);
    var r := head + Separator + FormatValue(d.field, d.newValue);
    assert r[..|head|] == head;
    assert r[|head|..|head| + |Separator|] == Separator;
    assert r[|head| + |Separator|..] == FormatValue(d.field, d.newValue);
    r
  }

  /** A cost is shown as `$` and its en-US groups: the minus sign, if any, leads the first group, and the digits without commas are `toString`. */
  lemma FormatCostGroups(field: Field, n: int)
    requires field == MonthlyCost || field == InstallationCost
    ensures var r := FormatValue(field, Num(n));
      var magnitude := Text.Split(NatGrouped(if n < 0 then -n else n), ',');
      r[0] == '$' && RemoveCommas(r[1..]) == IntToString(n) && ThousandsGroups(magnitude) &&
      Text.Split(r[1..], ',') == [(if n < 0 then "-" else "") + magnitude[0]] + magnitude[1..]
  {
    var r := FormatValue(field, Num(n));
    assert r[1..] == Grouped(n);
    SignedGroupedDigits(n);
    GroupedShape(n);
  }

  /** Two different amounts never format alike, costs or not. */
  lemma FormatNumberInjective(field: Field, m: int, n: int)
    requires FormatValue(field, Num(m)) == FormatValue(field, Num(n))
    ensures m == n
  {
    var r := FormatValue(field, Num(m));
    if field == MonthlyCost || field == InstallationCost {
      assert ParseInt(RemoveCommas(r[1..])) == Some(m);
    } else {
      assert ParseInt(r) == Some(m);
    }
  }

  // ---------------------------------------------------------------------------
  // calculateCostImpact

  /** The two totals of `calculateCostImpact`. */
  datatype CostImpact = CostImpact(monthlyImpact: int, oneTimeImpact: int)

  function MonthlyCostOf(c: Circuit): (r: int) { c.monthlyCost }

  /** `circuit.installation_cost || 0`; with integer costs the fallback changes nothing. */
  function InstallationCostOf(c: Circuit): (r: int) { c.installationCost }

  /** `differences.find(d => d.field === field)`. */
  function FindField(ds: seq<Difference>, field: Field): (r: Option<Difference>)
    ensures r.Some? ==> r.value in ds && r.value.field == field
    ensures r.None? <==> forall d :: d in ds ==> d.field != field
  {
    if ds == [] then None
    else if ds[0].field == field then Some(ds[0])
    else
      assert forall d :: d in ds ==> d == ds[0] || d in ds[1..];
      FindField(ds[1..], field)
  }

  /** JavaScript's numeric reading of a value in `newValue - oldValue`; text is not modelled and reads as 0. */
  function NumberOf(v: Value): (r: int)
    ensures v.Num? ==> r == v.n
    ensures v.Bool? ==> r == (if v.b then 1 else 0)
    ensures !v.Num? && !v.Bool? ==> r == 0
  {
    match v
    case Num(n) => n
    case Bool(b) => if b then 1 else 0
    case Null => 0
    case Str(_) => 0
  }

  /** A modified entry's monthly change: new minus old on its `monthlycost` difference, else 0. */
  function ModifiedCostDelta(e: ModifiedEntry): (r: int) {
    match FindField(e.differences, MonthlyCost)
    case Some(d) => NumberOf(d.newValue) - NumberOf(d.oldValue)
    case None => 0
  }

  /**
   * The monthly impact adds the added circuits' costs, subtracts the removed ones' and adds each
   * modified entry's delta; only added circuits bring an installation cost.
   */
  function CalculateCostImpact(comparison: Comparison): (r: CostImpact)
    ensures comparison.added == [] ==> r.oneTimeImpact == 0
    ensures comparison.added == [] && comparison.modified == [] ==>
              r.monthlyImpact == -Sum(comparison.removed, MonthlyCostOf)
    ensures comparison.removed == [] && comparison.modified == [] ==>
              r.monthlyImpact == Sum(comparison.added, MonthlyCostOf)
    ensures comparison.modified == [] && comparison.removed == [] && comparison.added == [] ==> r == CostImpact(0, 0)
  {
    CostImpact(
      Sum(comparison.added, MonthlyCostOf) - Sum(comparison.removed, MonthlyCostOf) +
      Sum(comparison.modified, ModifiedCostDelta),
      Sum(comparison.added, InstallationCostOf))
  }

  /** The total of `f` over the circuits whose id is in `ids`. */
  function CostIn(cs: seq<Circuit>, ids: set<string>, f: Circuit -> int): (r: int) {
    if cs == [] then 0
    else
      var c := cs[|cs| - 1];
      CostIn(cs[..|cs| - 1], ids, f) + (if c.id in ids then f(c) else 0)
  }

  /** Splitting a list by id: the unmatched circuits and the rest share its total. */
  lemma {:induction false} UnmatchedSplit(cs: seq<Circuit>, ids: set<string>, f: Circuit -> int)
    ensures Sum(cs, f) == Sum(Unmatched(cs, ids), f) + CostIn(cs, ids, f)
  {
    if cs != [] {
      var c := cs[|cs| - 1];
      UnmatchedSplit(cs[..|cs| - 1], ids, f);
      SumAppend(Unmatched(cs[..|cs| - 1], ids), if c.id !in ids then [c] else [], f);
      assert Sum([c], f) == f(c) by { assert [c][..0] == []; }
      assert Sum([], f) == 0;
    }
  }

  /** Adding one id to the set adds the cost of the circuits carrying it. */
  lemma {:induction false} CostInInsert(cs: seq<Circuit>, ids: set<string>, x: string)
    requires x !in ids
    ensures CostIn(cs, ids + {x}, MonthlyCostOf) == CostIn(cs, ids, MonthlyCostOf) + CostIn(cs, {x}, MonthlyCostOf)
  {
    if cs != [] {
      CostInInsert(cs[..|cs| - 1], ids, x);
    }
  }

  /** With unique ids the last circuit's id is not used before it. */
  lemma LastIdFresh(cs: seq<Circuit>)
    requires UniqueIds(cs) && cs != []
    ensures cs[|cs| - 1].id !in Ids(cs[..|cs| - 1])
  {
    var init := cs[..|cs| - 1];
    forall c | c in init ensures c.id != cs[|cs| - 1].id {
      var j :| 0 <= j < |init| && init[j] == c;
      assert cs[j] == c;
    }
  }

  /** With unique ids, the cost under an id is that of the one circuit the map keeps for it. */
  lemma {:induction false} CostOfOneId(cs: seq<Circuit>, x: string)
    requires UniqueIds(cs)
    ensures CostIn(cs, {x}, MonthlyCostOf) == if x in Ids(cs) then CircuitMap(cs)[x].monthlyCost else 0
  {
    if cs != [] {
      var init := cs[..|cs| - 1];
      var c := cs[|cs| - 1];
      assert UniqueIds(init);
      CostOfOneId(init, x);
      assert cs == init + [c];
      assert Ids(cs) == Ids(init) + {c.id};
      LastIdFresh(cs);
    }
  }

  /** The monthly change `calculateCostImpact` reads off a difference list is new minus old cost. */
  lemma CostDeltaOfDifferences(active: Circuit, proposed: Circuit)
    ensures ModifiedCostDelta(ModifiedEntry(proposed, Differences(active, proposed))) == proposed.monthlyCost - active.monthlyCost
  {
    DifferencesCharacterised(active, proposed);
    var ds := Differences(active, proposed);
    assert GetField(active, MonthlyCost) == Num(active.monthlyCost);
    assert GetField(proposed, MonthlyCost) == Num(proposed.monthlyCost);
    var r := FindField(ds, MonthlyCost);
    if active.monthlyCost != proposed.monthlyCost {
      assert MonthlyCost in ComparisonFields;
      var k :| 0 <= k < |ds| && ds[k].field == MonthlyCost;
      assert r.Some?;
      assert IsDifferenceOf(r.value, active, proposed);
    } else {
      forall d | d in ds ensures d.field != MonthlyCost {
        assert IsDifferenceOf(d, active, proposed);
      }
    }
  }

  /** The proposed total splits into the added circuits, the modified deltas and the active cost of the common ids. */
  lemma {:induction false} ProposedSplit(active: seq<Circuit>, proposed: seq<Circuit>)
    requires UniqueIds(active) && UniqueIds(proposed)
    ensures Sum(proposed, MonthlyCostOf) ==
            Sum(Unmatched(proposed, Ids(active)), MonthlyCostOf) +
            Sum(ModifiedOf(proposed, CircuitMap(active)), ModifiedCostDelta) +
            CostIn(active, Ids(proposed), MonthlyCostOf)
  {
    if proposed == [] {
      assert Ids(proposed) == {};
      CostInNone(active, MonthlyCostOf);
    } else {
      var init := proposed[..|proposed| - 1];
      var p := proposed[|proposed| - 1];
      assert UniqueIds(init);
      ProposedSplit(active, init);
      assert proposed == init + [p];
      SumAppend(init, [p], MonthlyCostOf);
      assert Sum([p], MonthlyCostOf) == p.monthlyCost by { assert [p][..0] == []; }
      AddedStep(proposed, Ids(active));
      ModifiedCostStep(proposed, active);
      CommonCostStep(active, proposed);
    }
  }

  lemma AddedStep(proposed: seq<Circuit>, ids: set<string>)
    requires proposed != []
    ensures var p := proposed[|proposed| - 1];
      Sum(Unmatched(proposed, ids), MonthlyCostOf) ==
      Sum(Unmatched(proposed[..|proposed| - 1], ids), MonthlyCostOf) + (if p.id !in ids then p.monthlyCost else 0)
  {
    var p := proposed[|proposed| - 1];
    var added := if p.id !in ids then [p] else [];
    SumAppend(Unmatched(proposed[..|proposed| - 1], ids), added, MonthlyCostOf);
    assert Sum([p], MonthlyCostOf) == p.monthlyCost by { assert [p][..0] == []; }
  }

  lemma ModifiedCostStep(proposed: seq<Circuit>, active: seq<Circuit>)
    requires proposed != []
    ensures var p := proposed[|proposed| - 1]; var am := CircuitMap(active);
      Sum(ModifiedOf(proposed, am), ModifiedCostDelta) ==
      Sum(ModifiedOf(proposed[..|proposed| - 1], am), ModifiedCostDelta)
      + (if p.id in am then p.monthlyCost - am[p.id].monthlyCost else 0)
  {
    var p := proposed[|proposed| - 1];
    var am := CircuitMap(active);
    if p.id in am {
      var a := am[p.id];
      var ds := Differences(a, p);
      var modified := if ds != [] then [ModifiedEntry(p, ds)] else [];
      SumAppend(ModifiedOf(proposed[..|proposed| - 1], am), modified, ModifiedCostDelta);
      CostDeltaOfDifferences(a, p);
      if ds != [] {
        var e := ModifiedEntry(p, ds);
        assert Sum([e], ModifiedCostDelta) == ModifiedCostDelta(e) by { assert [e][..0] == []; }
      }
    } else {
      SumAppend(ModifiedOf(proposed[..|proposed| - 1], am), [], ModifiedCostDelta);
    }
  }

  lemma CommonCostStep(active: seq<Circuit>, proposed: seq<Circuit>)
    requires UniqueIds(active) && UniqueIds(proposed) && proposed != []
    ensures var p := proposed[|proposed| - 1]; var am := CircuitMap(active);
      CostIn(active, Ids(proposed), MonthlyCostOf) ==
      CostIn(active, Ids(proposed[..|proposed| - 1]), MonthlyCostOf) + (if p.id in am then am[p.id].monthlyCost else 0)
  {
    var init := proposed[..|proposed| - 1];
    var p := proposed[|proposed| - 1];
    assert Ids(proposed) == Ids(init) + {p.id} by {
      assert proposed == init + [p];
    }
    LastIdFresh(proposed);
    CostInInsert(active, Ids(init), p.id);
    CostOfOneId(active, p.id);
  }

  lemma {:induction false} CostInNone(cs: seq<Circuit>, f: Circuit -> int)
    ensures CostIn(cs, {}, f) == 0
  {
    if cs != [] {
      CostInNone(cs[..|cs| - 1], f);
    }
  }

  /**
   * For lists with distinct ids the monthly impact of their comparison is the proposed
   * monthly total minus the active one, and the one-time impact is the installation cost of
   * the proposed circuits that are not already active: removed and modified circuits add
   * nothing to it.
   */
  lemma CostImpactOfCompare(active: seq<Circuit>, proposed: seq<Circuit>)
    requires UniqueIds(active) && UniqueIds(proposed)
    ensures CalculateCostImpact(Compare(active, proposed)).monthlyImpact ==
            Sum(proposed, MonthlyCostOf) - Sum(active, MonthlyCostOf)
    ensures CalculateCostImpact(Compare(active, proposed)).oneTimeImpact ==
            Sum(proposed, InstallationCostOf) - CostIn(proposed, Ids(active), InstallationCostOf)
  {
    ProposedSplit(active, proposed);
    UnmatchedSplit(active, Ids(proposed), MonthlyCostOf);
    UnmatchedSplit(proposed, Ids(active), InstallationCostOf);
  }
}
