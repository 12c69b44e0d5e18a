/** The `$group` / `$sort` stage of the analytics and map endpoints
    (controller/controller.js: getOscaAnalytics, getPdaoAnalytics,
    getPwdMapData, getYouthMapData, getYouthAnalytics, getSeniorMapData):
    resident records are grouped by their free-text barangay label, each
    group carries its conditional counts, and the groups come out sorted by
    label with the null label first. */
module Grouping {
  import opened Options

  /** The fields of a resident record the aggregation reads. `barangay` is
      the grouping field of the collection (`barangay` for PWD and youth,
      `identifying_information.address.barangay` for seniors); a missing
      field is `None`. */
  datatype Resident = Resident(
    barangay: Option<string>,
    gender: Option<string>,
    registeredSk: Option<string>,
    votedSk: Option<string>,
    registeredNational: Option<string>)

  /** The sums one `$group` stage accumulates: the record count and the
      conditional counts `$sum: { $cond: [{ $eq: [field, value] }, 1, 0] }`. */
  datatype Tally = Tally(
    count: nat,
    maleCount: nat,
    femaleCount: nat,
    skRegistered: nat,
    skVoted: nat,
    nationalRegistered: nat)

  /** One output document of `$group`: `_id` is the label. */
  datatype Group = Group(key: Option<string>, tally: Tally)

  const Zero := Tally(0, 0, 0, 0, 0, 0)

  /** `{ $cond: [{ $eq: [field, value] }, 1, 0] }`. */
  function Flag(field: Option<string>, value: string): nat {
    if field == Some(value) then 1 else 0
  }

  /** What one record adds to its group. */
  function Contribution(r: Resident): Tally {
    Tally(1, Flag(r.gender, "Male"), Flag(r.gender, "Female"),
          Flag(r.registeredSk, "Yes"), Flag(r.votedSk, "Yes"), Flag(r.registeredNational, "Yes"))
  }

  function Plus(a: Tally, b: Tally): Tally {
    Tally(a.count + b.count, a.maleCount + b.maleCount, a.femaleCount + b.femaleCount,
          a.skRegistered + b.skRegistered, a.skVoted + b.skVoted,
          a.nationalRegistered + b.nationalRegistered)
  }

  /** The bounds every group respects: a record is at most one of Male and
      Female, and each "Yes" flag is counted at most once per record. */
  predicate Consistent(t: Tally) {
    && t.maleCount + t.femaleCount <= t.count
    && t.skRegistered <= t.count
    && t.skVoted <= t.count
    && t.nationalRegistered <= t.count
  }

  // ------------------------------------------------------------ ordering

  /** Code-point order on strings, a proper prefix first. */
  predicate StringLess(a: string, b: string) {
    if a == [] then b != []
    else b != [] && (a[0] < b[0] || (a[0] == b[0] && StringLess(a[1..], b[1..])))
  }

  /** The `$sort: { _id: 1 }` order on labels: null before every string. */
  predicate KeyLess(a: Option<string>, b: Option<string>) {
    match (a, b)
    case (None, Some(_)) => true
    case (Some(s), Some(t)) => StringLess(s, t)
    case _ => false
  }

  lemma {:induction false} StringLessIrreflexive(a: string)
    ensures !StringLess(a, a)
  {
    if a != [] { StringLessIrreflexive(a[1..]); }
  }

  lemma {:induction false} StringLessTransitive(a: string, b: string, c: string)
    requires StringLess(a, b) && StringLess(b, c)
    ensures StringLess(a, c)
  {
    if a != [] && a[0] == b[0] && b[0] == c[0] {
      StringLessTransitive(a[1..], b[1..], c[1..]);
    }
  }

  lemma {:induction false} StringLessTotal(a: string, b: string)
    requires a != b
    ensures StringLess(a, b) || StringLess(b, a)
  {
    if a != [] && b != [] && a[0] == b[0] {
      assert a == [a[0]] + a[1..] && b == [b[0]] + b[1..];
      StringLessTotal(a[1..], b[1..]);
    }
  }

  lemma KeyLessIrreflexive(a: Option<string>)
    ensures !KeyLess(a, a)
  {
    if a.Some? { StringLessIrreflexive(a.value); }
  }

  lemma KeyLessTransitive(a: Option<string>, b: Option<string>, c: Option<string>)
    requires KeyLess(a, b) && KeyLess(b, c)
    ensures KeyLess(a, c)
  {
    if a.Some? { StringLessTransitive(a.value, b.value, c.value); }
  }

  lemma KeyLessTotal(a: Option<string>, b: Option<string>)
    requires a != b
    ensures KeyLess(a, b) || KeyLess(b, a)
  {
    if a.Some? && b.Some? { StringLessTotal(a.value, b.value); }
  }

  /** Groups in strictly ascending label order (so no label twice). */
  predicate Sorted(gs: seq<Group>) {
    forall i, j :: 0 <= i < j < |gs| ==> KeyLess(gs[i].key, gs[j].key)
  }

  // ------------------------------------------------------------ grouping

  /** The labels of the groups. */
  function Keys(gs: seq<Group>): set<Option<string>> {
    if gs == [] then {} else {gs[0].key} + Keys(gs[1..])
  }

  lemma {:induction false} KeysIndex(gs: seq<Group>, k: Option<string>)
    ensures k in Keys(gs) <==> exists j :: 0 <= j < |gs| && gs[j].key == k
  {
    if gs != [] {
      KeysIndex(gs[1..], k);
      if exists j :: 0 <= j < |gs[1..]| && gs[1..][j].key == k {
        var j :| 0 <= j < |gs[1..]| && gs[1..][j].key == k;
        assert gs[j + 1].key == k;
      }
      if exists j :: 1 <= j < |gs| && gs[j].key == k {
        var j :| 1 <= j < |gs| && gs[j].key == k;
        assert gs[1..][j - 1].key == k;
      }
    }
  }

  /** The sums of the group with label `k`, or zero when there is none. */
  function TallyAt(gs: seq<Group>, k: Option<string>): Tally {
    if gs == [] then Zero
    else if gs[0].key == k then gs[0].tally
    else TallyAt(gs[1..], k)
  }

  /** A label that no group carries has zero sums. */
  lemma {:induction false} NotInKeysZero(gs: seq<Group>, k: Option<string>)
    requires k !in Keys(gs)
    ensures TallyAt(gs, k) == Zero
  {
    if gs != [] { NotInKeysZero(gs[1..], k); }
  }

  /** A label below the head of a sorted list is not in it. */
  lemma BelowHeadNotInKeys(gs: seq<Group>, k: Option<string>)
    requires Sorted(gs) && gs != [] && KeyLess(k, gs[0].key)
    ensures k !in Keys(gs)
  {
    KeysIndex(gs, k);
    forall j | 0 <= j < |gs| ensures gs[j].key != k {
      if j > 0 { KeyLessTransitive(k, gs[0].key, gs[j].key); }
      KeyLessIrreflexive(k);
    }
  }

  /** Adds a record's contribution to the sorted group list: to the group
      with its label, or as a new group at its place in the order. */
  function Insert(gs: seq<Group>, k: Option<string>, t: Tally): seq<Group> {
    if gs == [] then [Group(k, t)]
    else if gs[0].key == k then [Group(k, Plus(gs[0].tally, t))] + gs[1..]
    else if KeyLess(k, gs[0].key) then [Group(k, t)] + gs
    else [gs[0]] + Insert(gs[1..], k, t)
  }

  lemma {:induction false} InsertKeys(gs: seq<Group>, k: Option<string>, t: Tally)
    ensures Keys(Insert(gs, k, t)) == Keys(gs) + {k}
  {
    var r := Insert(gs, k, t);
    if gs == [] {
    } else if gs[0].key == k {
      assert r[1..] == gs[1..];
    } else if KeyLess(k, gs[0].key) {
      assert r[1..] == gs;
    } else {
      InsertKeys(gs[1..], k, t);
      assert r[1..] == Insert(gs[1..], k, t);
    }
  }

  lemma {:induction false} InsertSorted(gs: seq<Group>, k: Option<string>, t: Tally)
    requires Sorted(gs)
    ensures Sorted(Insert(gs, k, t))
  {
    var r := Insert(gs, k, t);
    if gs == [] {
    } else if gs[0].key == k {
      assert forall j :: 0 <= j < |r| ==> r[j].key == gs[j].key;
    } else if KeyLess(k, gs[0].key) {
      forall i, j | 0 <= i < j < |r| ensures KeyLess(r[i].key, r[j].key) {
        if i == 0 && j > 1 { KeyLessTransitive(k, gs[0].key, gs[j - 1].key); }
      }
    } else {
      KeyLessTotal(k, gs[0].key);
      var rest := Insert(gs[1..], k, t);
      InsertSorted(gs[1..], k, t);
      InsertKeys(gs[1..], k, t);
      assert r == [gs[0]] + rest;
      forall j | 0 <= j < |rest| ensures KeyLess(gs[0].key, rest[j].key) {
        KeysIndex(rest, rest[j].key);
        if rest[j].key != k {
          KeysIndex(gs[1..], rest[j].key);
          var m :| 0 <= m < |gs[1..]| && gs[1..][m].key == rest[j].key;
          assert gs[m + 1].key == rest[j].key;
        }
      }
      forall i, j | 0 <= i < j < |r| ensures KeyLess(r[i].key, r[j].key) {
        if i == 0 {
          assert r[j] == rest[j - 1];
        } else {
          assert r[i] == rest[i - 1] && r[j] == rest[j - 1];
        }
      }
    }
  }

  lemma {:induction false} InsertTally(gs: seq<Group>, k: Option<string>, t: Tally)
    requires Sorted(gs)
    ensures forall k' :: TallyAt(Insert(gs, k, t), k') ==
                         if k' == k then Plus(TallyAt(gs, k), t) else TallyAt(gs, k')
  {
    var r := Insert(gs, k, t);
    if gs == [] {
      assert Plus(Zero, t) == t;
    } else if gs[0].key == k {
      assert r[1..] == gs[1..];
    } else if KeyLess(k, gs[0].key) {
      assert r[1..] == gs;
      BelowHeadNotInKeys(gs, k);
      NotInKeysZero(gs, k);
      assert Plus(Zero, t) == t;
    } else {
      InsertTally(gs[1..], k, t);
      assert r[1..] == Insert(gs[1..], k, t);
    }
  }

  /** The `$group` + `$sort` pipeline over the records, in record order. */
  function GroupByBarangay(rs: seq<Resident>): seq<Group> {
    if rs == [] then []
    else Insert(GroupByBarangay(rs[..|rs| - 1]), rs[|rs| - 1].barangay, Contribution(rs[|rs| - 1]))
  }

  /** The labels the records carry, in record order. */
  function Labels(rs: seq<Resident>): seq<Option<string>> {
    seq(|rs|, i requires 0 <= i < |rs| => rs[i].barangay)
  }

  /** The reference sums for label `k`: the contributions of exactly the
      records whose label equals `k`. */
  function TallyOf(rs: seq<Resident>, k: Option<string>): Tally {
    if rs == [] then Zero
    else Plus(TallyOf(rs[..|rs| - 1], k),
              if rs[|rs| - 1].barangay == k then Contribution(rs[|rs| - 1]) else Zero)
  }

  /** The grouping is sorted by label, has one group per distinct label of
      the records and no other, and each group holds the sums of exactly the
      records with that label. */
  lemma {:induction false} GroupSpec(rs: seq<Resident>)
    ensures Sorted(GroupByBarangay(rs))
    ensures forall k :: k in Keys(GroupByBarangay(rs)) <==> k in Labels(rs)
    ensures forall k :: TallyAt(GroupByBarangay(rs), k) == TallyOf(rs, k)
  {
    if rs != [] {
      var init := rs[..|rs| - 1];
      var last := rs[|rs| - 1];
      GroupSpec(init);
      InsertSorted(GroupByBarangay(init), last.barangay, Contribution(last));
      InsertKeys(GroupByBarangay(init), last.barangay, Contribution(last));
      InsertTally(GroupByBarangay(init), last.barangay, Contribution(last));
      assert Labels(rs) == Labels(init) + [last.barangay];
      forall k ensures TallyAt(GroupByBarangay(rs), k) == TallyOf(rs, k) {
        if k != last.barangay { assert Plus(TallyOf(init, k), Zero) == TallyOf(init, k); }
      }
    }
  }

  /** In a sorted list, `TallyAt` finds each group's own sums. */
  lemma {:induction false} TallyAtSorted(gs: seq<Group>, i: nat)
    requires Sorted(gs) && i < |gs|
    ensures TallyAt(gs, gs[i].key) == gs[i].tally
  {
    if i > 0 {
      assert KeyLess(gs[0].key, gs[i].key);
      KeyLessIrreflexive(gs[0].key);
      assert gs[1..][i - 1] == gs[i];
      TallyAtSorted(gs[1..], i - 1);
    }
  }

  /** The count of a label is the number of records carrying it, and the
      conditional counts respect the bounds of `Consistent`. */
  lemma {:induction false} TallyOfSpec(rs: seq<Resident>, k: Option<string>)
    ensures TallyOf(rs, k).count == multiset(Labels(rs))[k]
    ensures Consistent(TallyOf(rs, k))
  {
    if rs != [] {
      var init := rs[..|rs| - 1];
      TallyOfSpec(init, k);
      assert Labels(rs) == Labels(init) + [rs[|rs| - 1].barangay];
    }
  }

  /** Each group of the pipeline counts exactly the records with its label
      (at least one), its conditional counts are those records' and respect
      the bounds of `Consistent`. */
  lemma GroupCounts(rs: seq<Resident>, i: nat)
    requires i < |GroupByBarangay(rs)|
    ensures GroupByBarangay(rs)[i].tally == TallyOf(rs, GroupByBarangay(rs)[i].key)
    ensures GroupByBarangay(rs)[i].tally.count == multiset(Labels(rs))[GroupByBarangay(rs)[i].key] > 0
    ensures Consistent(GroupByBarangay(rs)[i].tally)
  {
    var gs := GroupByBarangay(rs);
    GroupSpec(rs);
    TallyAtSorted(gs, i);
    TallyOfSpec(rs, gs[i].key);
    KeysIndex(gs, gs[i].key);
  }

  /** Every label a record carries has its group. */
  lemma LabelHasGroup(rs: seq<Resident>, j: nat)
    requires j < |rs|
    ensures exists i :: 0 <= i < |GroupByBarangay(rs)| && GroupByBarangay(rs)[i].key == rs[j].barangay
  {
    GroupSpec(rs);
    assert Labels(rs)[j] == rs[j].barangay;
    KeysIndex(GroupByBarangay(rs), rs[j].barangay);
  }

  // ------------------------------------------ analytics post-processing

  /** `results.filter(r => r._id)`. */
  function FilterTruthy(gs: seq<Group>): (r: seq<Group>)
    ensures forall g :: g in r <==> g in gs && Truthy(g.key)
  {
    if gs == [] then []
    else (if Truthy(gs[0].key) then [gs[0]] else []) + FilterTruthy(gs[1..])
  }

  lemma {:induction false} FilterTruthySorted(gs: seq<Group>)
    requires Sorted(gs)
    ensures Sorted(FilterTruthy(gs))
  {
    if gs != [] {
      FilterTruthySorted(gs[1..]);
      var rest := FilterTruthy(gs[1..]);
      if Truthy(gs[0].key) {
        var r := FilterTruthy(gs);
        assert r == [gs[0]] + rest;
        forall i, j | 0 <= i < j < |r| ensures KeyLess(r[i].key, r[j].key) {
          if i == 0 {
            assert r[j] in gs[1..];
            var m :| 0 <= m < |gs[1..]| && gs[1..][m] == r[j];
            assert gs[m + 1] == r[j];
          } else {
            assert r[i] == rest[i - 1] && r[j] == rest[j - 1];
          }
        }
      }
    }
  }

  /** One entry of the analytics JSON before field selection:
      `{ id: idx + 1, name: r._id, ... }`. */
  datatype Numbered = Numbered(id: nat, name: string, tally: Tally)

  /** `.map((r, idx) => ({ id: idx + 1, name: r._id, ... }))`. */
  function Number(gs: seq<Group>): (r: seq<Numbered>)
    requires forall i :: 0 <= i < |gs| ==> Truthy(gs[i].key)
    ensures |r| == |gs|
  {
    seq(|gs|, i requires 0 <= i < |gs| && Truthy(gs[i].key) => Numbered(i + 1, gs[i].key.value, gs[i].tally))
  }

  /** The entries the analytics endpoints return, before field selection. */
  function AnalyticsEntries(rs: seq<Resident>): seq<Numbered> {
    var fs := FilterTruthy(GroupByBarangay(rs));
    assert forall i :: 0 <= i < |fs| ==> fs[i] in fs;
    Number(fs)
  }

  /** The entries are numbered 1..k in order, their names strictly ascend,
      each entry's sums are those of the records labelled exactly with its
      (non-empty) name, of which there is at least one, and every non-empty
      label of the records has its entry. */
  lemma AnalyticsEntriesSpec(rs: seq<Resident>)
    ensures forall i :: 0 <= i < |AnalyticsEntries(rs)| ==> AnalyticsEntries(rs)[i].id == i + 1
    ensures forall i, j :: 0 <= i < j < |AnalyticsEntries(rs)| ==>
              StringLess(AnalyticsEntries(rs)[i].name, AnalyticsEntries(rs)[j].name)
    ensures forall i :: 0 <= i < |AnalyticsEntries(rs)| ==>
              && AnalyticsEntries(rs)[i].name != ""
              && AnalyticsEntries(rs)[i].tally == TallyOf(rs, Some(AnalyticsEntries(rs)[i].name))
              && AnalyticsEntries(rs)[i].tally.count
                 == multiset(Labels(rs))[Some(AnalyticsEntries(rs)[i].name)] > 0
              && Consistent(AnalyticsEntries(rs)[i].tally)
    ensures forall j :: 0 <= j < |rs| && Truthy(rs[j].barangay) ==>
              exists i :: 0 <= i < |AnalyticsEntries(rs)| && Some(AnalyticsEntries(rs)[i].name) == rs[j].barangay
  {
    var gs := GroupByBarangay(rs);
    var fs := FilterTruthy(gs);
    var es := AnalyticsEntries(rs);
    GroupSpec(rs);
    FilterTruthySorted(gs);
    forall i | 0 <= i < |es|
      ensures es[i].tally == TallyOf(rs, Some(es[i].name))
      ensures es[i].tally.count == multiset(Labels(rs))[Some(es[i].name)] > 0
      ensures Consistent(es[i].tally)
    {
      assert fs[i] in gs;
      var m :| 0 <= m < |gs| && gs[m] == fs[i];
      GroupCounts(rs, m);
    }
    forall i, j | 0 <= i < j < |es| ensures StringLess(es[i].name, es[j].name) {
      assert KeyLess(fs[i].key, fs[j].key);
    }
    forall j | 0 <= j < |rs| && Truthy(rs[j].barangay)
      ensures exists i :: 0 <= i < |es| && Some(es[i].name) == rs[j].barangay
    {
      LabelHasGroup(rs, j);
      var m :| 0 <= m < |gs| && gs[m].key == rs[j].barangay;
      assert gs[m] in fs;
      var i :| 0 <= i < |fs| && fs[i] == gs[m];
      assert Some(es[i].name) == rs[j].barangay;
    }
  }

  /** One entry of `getOscaAnalytics`: `{ id, name, oscaCount }`. */
  datatype OscaEntry = OscaEntry(id: nat, name: string, oscaCount: nat)

  function OscaAnalytics(seniors: seq<Resident>): seq<OscaEntry> {
    var es := AnalyticsEntries(seniors);
    seq(|es|, i requires 0 <= i < |es| => OscaEntry(es[i].id, es[i].name, es[i].tally.count))
  }

  /** Each OSCA entry is numbered by position and counts exactly the senior
      records whose barangay label equals its name. */
  lemma OscaAnalyticsSpec(seniors: seq<Resident>)
    ensures |OscaAnalytics(seniors)| == |AnalyticsEntries(seniors)|
    ensures forall i :: 0 <= i < |OscaAnalytics(seniors)| ==>
              OscaAnalytics(seniors)[i].id == i + 1
              && OscaAnalytics(seniors)[i].oscaCount
                 == multiset(Labels(seniors))[Some(OscaAnalytics(seniors)[i].name)] > 0
  {
    AnalyticsEntriesSpec(seniors);
  }

  /** One entry of `getPdaoAnalytics`: `{ id, name, pdaoCount, maleCount,
      femaleCount }`. */
  datatype PdaoEntry = PdaoEntry(id: nat, name: string, pdaoCount: nat, maleCount: nat, femaleCount: nat)

  function PdaoAnalytics(pwds: seq<Resident>): seq<PdaoEntry> {
    var es := AnalyticsEntries(pwds);
    seq(|es|, i requires 0 <= i < |es| =>
      PdaoEntry(es[i].id, es[i].name, es[i].tally.count, es[i].tally.maleCount, es[i].tally.femaleCount))
  }

  /** Each PDAO entry is numbered by position, counts exactly the PWD records
      labelled with its name, and its gender split fits in that count. */
  lemma PdaoAnalyticsSpec(pwds: seq<Resident>)
    ensures |PdaoAnalytics(pwds)| == |AnalyticsEntries(pwds)|
    ensures forall i :: 0 <= i < |PdaoAnalytics(pwds)| ==>
              PdaoAnalytics(pwds)[i].id == i + 1
              && PdaoAnalytics(pwds)[i].pdaoCount == multiset(Labels(pwds))[Some(PdaoAnalytics(pwds)[i].name)]
              && PdaoAnalytics(pwds)[i].maleCount + PdaoAnalytics(pwds)[i].femaleCount
                 <= PdaoAnalytics(pwds)[i].pdaoCount
  {
    AnalyticsEntriesSpec(pwds);
  }
}
