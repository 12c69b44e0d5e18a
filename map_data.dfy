/** The endpoints built on the reconciler (controller/controller.js):
    getPwdMapData, getYouthMapData, getSeniorMapData, which reconcile the
    grouped counts with the hard-coded list of the sixteen barangays of
    Silay City, and getYouthAnalytics, which matches case-insensitively only
    and adds a total and a rounded mean. */
module MapData {
  import opened Options
  import opened Text
  import opened Numbers
  import opened Grouping
  import opened Reconcile

  function Canonical(name: string, lat: string, lon: string, population: nat): Barangay {
    Barangay(name, Coordinate(lat), Coordinate(lon), population)
  }

  /** The `barangayData` list the three map endpoints share. */
  const Barangays: seq<Barangay> := [
    Canonical("Barangay 1", "10.80240", "122.97624", 4200),
    Canonical("Barangay 2", "10.79938", "122.97828", 3750),
    Canonical("Barangay 3", "10.79770", "122.97281", 4800),
    Canonical("Barangay 4", "10.78407", "123.00921", 3200),
    Canonical("Barangay 5", "10.78147", "122.99145", 2650),
    Canonical("Barangay Mambulac", "10.79754", "122.9679", 2100),
    Canonical("Barangay Guinhalaran", "10.7811", "122.9666", 3100),
    Canonical("Barangay E-Lopez", "10.82060", "123.03538", 1800),
    Canonical("Barangay Bagtic", "10.76204", "123.05122", 2850),
    Canonical("Barangay Balaring", "10.83171", "122.96136", 1920),
    Canonical("Barangay Hawaiian", "10.82606", "123.00549", 3900),
    Canonical("Barangay Patag", "10.72466", "123.15720", 1200),
    Canonical("Barangay Kapt. Ramon", "10.77394", "123.11920", 1500),
    Canonical("Barangay Guimbalaon", "10.75730", "123.07857", 2300),
    Canonical("Barangay Rizal", "10.79816", "122.99473", 2800),
    Canonical("Barangay Lantad", "10.80845", "122.97199", 2400)
  ]

  /** The `allBarangays` list of getYouthAnalytics. */
  const AllBarangays: seq<string> := [
    "Barangay 1", "Barangay 2", "Barangay 3", "Barangay 4", "Barangay 5",
    "Barangay Mambulac", "Barangay Guinhalaran", "Barangay E-Lopez", "Barangay Bagtic",
    "Barangay Balaring", "Barangay Hawaiian", "Barangay Patag",
    "Barangay Kapt. Ramon", "Barangay Guimbalaon", "Barangay Rizal", "Barangay Lantad"
  ]

  // ------------------------------------------------------ the breakdowns

  /** The counts of getPwdMapData: `{ pwdCount, maleCount, femaleCount }`. */
  datatype PwdCounts = PwdCounts(pwdCount: nat, maleCount: nat, femaleCount: nat)

  /** The counts of getSeniorMapData: `{ seniorCount }`. */
  datatype SeniorCounts = SeniorCounts(seniorCount: nat)

  /** getYouthMapData and getYouthAnalytics carry all six sums of a `Tally`
      (`youthCount` / `lydoCount` is its `count`). */

  function PwdOf(t: Tally): PwdCounts {
    PwdCounts(t.count, t.maleCount, t.femaleCount)
  }

  function SeniorOf(t: Tally): SeniorCounts {
    SeniorCounts(t.count)
  }

  function PwdBuckets(gs: seq<Group>): (bs: seq<Bucket<PwdCounts>>)
    ensures |bs| == |gs|
  {
    seq(|gs|, i requires 0 <= i < |gs| => Bucket(gs[i].key, PwdOf(gs[i].tally)))
  }

  function SeniorBuckets(gs: seq<Group>): (bs: seq<Bucket<SeniorCounts>>)
    ensures |bs| == |gs|
  {
    seq(|gs|, i requires 0 <= i < |gs| => Bucket(gs[i].key, SeniorOf(gs[i].tally)))
  }

  function YouthBuckets(gs: seq<Group>): (bs: seq<Bucket<Tally>>)
    ensures |bs| == |gs|
  {
    seq(|gs|, i requires 0 <= i < |gs| => Bucket(gs[i].key, gs[i].tally))
  }

  // --------------------------------------------------------- map endpoints

  function PwdMapData(pwds: seq<Resident>): seq<Row<PwdCounts>> {
    ReconcileAll(Barangays, PwdBuckets(GroupByBarangay(pwds)), PwdCounts(0, 0, 0))
  }

  function SeniorMapData(seniors: seq<Resident>): seq<Row<SeniorCounts>> {
    ReconcileAll(Barangays, SeniorBuckets(GroupByBarangay(seniors)), SeniorCounts(0))
  }

  function YouthMapData(youths: seq<Resident>): seq<Row<Tally>> {
    ReconcileAll(Barangays, YouthBuckets(GroupByBarangay(youths)), Zero)
  }

  /** The PWD map has the sixteen barangays in list order; a row whose name
      no label matches is zero, and otherwise it holds the counts of exactly
      the PWD records carrying the label the tiers chose; in every row
      `maleCount + femaleCount <= pwdCount`. */
  lemma PwdMapDataSpec(pwds: seq<Resident>)
    ensures |PwdMapData(pwds)| == |Barangays| == 16
    ensures forall i :: 0 <= i < 16 ==>
              PwdMapData(pwds)[i].name == Barangays[i].name && PwdMapData(pwds)[i].population == Barangays[i].population
    ensures forall i :: 0 <= i < 16 ==>
              var bs := PwdBuckets(GroupByBarangay(pwds));
              match Resolve(bs, Barangays[i].name)
              case None => PwdMapData(pwds)[i].counts == PwdCounts(0, 0, 0)
              case Some(h) => PwdMapData(pwds)[i].counts == PwdOf(TallyOf(pwds, bs[h.index].key))
    ensures forall i :: 0 <= i < 16 ==>
              PwdMapData(pwds)[i].counts.maleCount + PwdMapData(pwds)[i].counts.femaleCount
              <= PwdMapData(pwds)[i].counts.pwdCount
  {
    var gs := GroupByBarangay(pwds);
    var bs := PwdBuckets(gs);
    forall j | 0 <= j < |gs| ensures bs[j].counts == PwdOf(TallyOf(pwds, bs[j].key)) && Consistent(gs[j].tally) {
      GroupCounts(pwds, j);
    }
    ReconcilePreserves(Barangays, bs, PwdCounts(0, 0, 0), (c: PwdCounts) => c.maleCount + c.femaleCount <= c.pwdCount);
  }

  /** The youth map has the sixteen barangays in list order; each row is
      zero or holds the sums of exactly the youth records carrying the chosen
      label, and in every row the gender split and each "Yes" count fit in
      `youthCount`. */
  lemma YouthMapDataSpec(youths: seq<Resident>)
    ensures |YouthMapData(youths)| == 16
    ensures forall i :: 0 <= i < 16 ==> YouthMapData(youths)[i].name == Barangays[i].name
    ensures forall i :: 0 <= i < 16 ==>
              var bs := YouthBuckets(GroupByBarangay(youths));
              match Resolve(bs, Barangays[i].name)
              case None => YouthMapData(youths)[i].counts == Zero
              case Some(h) => YouthMapData(youths)[i].counts == TallyOf(youths, bs[h.index].key)
    ensures forall i :: 0 <= i < 16 ==> Consistent(YouthMapData(youths)[i].counts)
  {
    var gs := GroupByBarangay(youths);
    var bs := YouthBuckets(gs);
    forall j | 0 <= j < |gs| ensures bs[j].counts == TallyOf(youths, bs[j].key) && Consistent(gs[j].tally) {
      GroupCounts(youths, j);
    }
    ReconcilePreserves(Barangays, bs, Zero, (c: Tally) => Consistent(c));
  }

  /** The senior map has the sixteen barangays in list order; each row is
      zero or counts exactly the senior records carrying the chosen label. */
  lemma SeniorMapDataSpec(seniors: seq<Resident>)
    ensures |SeniorMapData(seniors)| == 16
    ensures forall i :: 0 <= i < 16 ==> SeniorMapData(seniors)[i].name == Barangays[i].name
    ensures forall i :: 0 <= i < 16 ==>
              var bs := SeniorBuckets(GroupByBarangay(seniors));
              match Resolve(bs, Barangays[i].name)
              case None => SeniorMapData(seniors)[i].counts == SeniorCounts(0)
              case Some(h) => SeniorMapData(seniors)[i].counts.seniorCount
                              == multiset(Labels(seniors))[bs[h.index].key]
  {
    var gs := GroupByBarangay(seniors);
    forall j | 0 <= j < |gs| ensures gs[j].tally.count == multiset(Labels(seniors))[gs[j].key] {
      GroupCounts(seniors, j);
    }
  }

  // ------------------------------------------------------ youth analytics

  /** One row of getYouthAnalytics: `{ id, name, lydoCount, ... }`. */
  datatype YouthRow = YouthRow(id: nat, name: string, counts: Tally)

  /** The `data` object of getYouthAnalytics. */
  datatype YouthSummary = YouthSummary(
    barangays: seq<YouthRow>, totalLYDO: nat, totalBarangays: nat, averageLYDO: nat)

  /** `result.reduce((sum, item) => sum + item.lydoCount, 0)`. */
  function SumLydo(rows: seq<YouthRow>): nat {
    if rows == [] then 0 else SumLydo(rows[..|rows| - 1]) + rows[|rows| - 1].counts.count
  }

  function YouthRows(names: seq<string>, bs: seq<Bucket<Tally>>): seq<YouthRow> {
    seq(|names|, i requires 0 <= i < |names| =>
      YouthRow(i + 1, names[i],
               match FindFirst(bs, CaseInsensitive, names[i])
               case Some(j) => bs[j].counts
               case None => Zero))
  }

  function YouthSummaryOf(names: seq<string>, bs: seq<Bucket<Tally>>): YouthSummary {
    var rows := YouthRows(names, bs);
    var total := SumLydo(rows);
    YouthSummary(rows, total, |rows|, if |rows| > 0 then RoundDiv(total, |rows|) else 0)
  }

  function YouthAnalytics(youths: seq<Resident>): YouthSummary {
    YouthSummaryOf(AllBarangays, YouthBuckets(GroupByBarangay(youths)))
  }

  /** One row per listed name, numbered from 1; a row takes the first bucket
      whose label equals its name ignoring case (the other tiers are never
      tried), and is zero when there is none; the total is the sum of the
      rows' counts and the mean is that total over the number of rows,
      rounded half up, or 0 for an empty list. */
  lemma YouthSummarySpec(names: seq<string>, bs: seq<Bucket<Tally>>)
    ensures |YouthSummaryOf(names, bs).barangays| == YouthSummaryOf(names, bs).totalBarangays == |names|
    ensures forall i :: 0 <= i < |names| ==>
              var row := YouthSummaryOf(names, bs).barangays[i];
              && row.id == i + 1 && row.name == names[i]
              && ((forall j :: 0 <= j < |bs| ==> !Matches(CaseInsensitive, bs[j].key, names[i])) ==> row.counts == Zero)
              && (forall j :: 0 <= j < |bs| && Matches(CaseInsensitive, bs[j].key, names[i])
                   && (forall k :: 0 <= k < j ==> !Matches(CaseInsensitive, bs[k].key, names[i]))
                   ==> row.counts == bs[j].counts)
    ensures YouthSummaryOf(names, bs).totalLYDO == SumLydo(YouthSummaryOf(names, bs).barangays)
    ensures |names| == 0 ==> YouthSummaryOf(names, bs).averageLYDO == 0
    ensures |names| > 0 ==>
              var s := YouthSummaryOf(names, bs);
              2 * s.totalLYDO - |names| < 2 * |names| * s.averageLYDO <= 2 * s.totalLYDO + |names|
  {
    forall i, j | 0 <= i < |names| && 0 <= j < |bs| && Matches(CaseInsensitive, bs[j].key, names[i])
                  && (forall k :: 0 <= k < j ==> !Matches(CaseInsensitive, bs[k].key, names[i]))
      ensures FindFirst(bs, CaseInsensitive, names[i]) == Some(j)
    {
      assert FindFirst(bs, CaseInsensitive, names[i]).Some?;
    }
  }

  /** The youth analytics has one row per barangay of the map list, in the
      same order, and the counts of every row respect the bounds of
      `Consistent`. */
  lemma YouthAnalyticsShape(youths: seq<Resident>)
    ensures |YouthAnalytics(youths).barangays| == 16 && YouthAnalytics(youths).totalBarangays == 16
    ensures forall i :: 0 <= i < 16 ==> YouthAnalytics(youths).barangays[i].name == Barangays[i].name
    ensures forall i :: 0 <= i < 16 ==> Consistent(YouthAnalytics(youths).barangays[i].counts)
  {
    var gs := GroupByBarangay(youths);
    var bs := YouthBuckets(gs);
    forall j | 0 <= j < |gs| ensures Consistent(bs[j].counts) {
      GroupCounts(youths, j);
    }
  }

  // --------------------------------------------- behaviour of the tiers

  /** The `hawaiian` clause matches on its own: "Hawaiian Sur" is taken by
      "Barangay Hawaiian" although neither lower-cased name contains the
      other. */
  lemma HawaiianClause()
    ensures Matches(Partial, Some("Hawaiian Sur"), "Barangay Hawaiian")
    ensures !Contains(Lower("Hawaiian Sur"), Lower("Barangay Hawaiian"))
    ensures !Contains(Lower("Barangay Hawaiian"), Lower("Hawaiian Sur"))
  {
    HawaiianMatches();
    HawaiianNeitherContains();
  }

  lemma HawaiianMatches()
    ensures Matches(Partial, Some("Hawaiian Sur"), "Barangay Hawaiian")
  {
    LowerHawaiian();
    HasWord("hawaiian sur", "hawaiian", 0);
    HasWord("barangay hawaiian", "hawaiian", 9);
  }

  lemma HawaiianNeitherContains()
    ensures !Contains(Lower("Hawaiian Sur"), Lower("Barangay Hawaiian"))
    ensures !Contains(Lower("Barangay Hawaiian"), Lower("Hawaiian Sur"))
  {
    LowerHawaiian();
    ShortNameLacksLong();
    LongNameLacksShort();
  }

  lemma ShortNameLacksLong()
    ensures !Contains("hawaiian sur", "barangay hawaiian")
  {
    ContainsLonger("hawaiian sur", "barangay hawaiian");
  }

  lemma LongNameLacksShort()
    ensures !Contains("barangay hawaiian", "hawaiian sur")
  {
    MissingChar("barangay hawaiian", "hawaiian sur", 's');
  }

  lemma LowerHawaiian()
    ensures Lower("Hawaiian Sur") == "hawaiian sur"
    ensures Lower("Barangay Hawaiian") == "barangay hawaiian"
  {
  }

  /** A word at a known position is contained. */
  lemma HasWord(hay: string, needle: string, i: nat)
    requires OccursAt(hay, needle, i)
    ensures Contains(hay, needle)
  {
    ContainsIff(hay, needle);
  }

  /** No name of the list contains "poblacion", so the `poblacion` clause
      never decides a match of the map endpoints. */
  lemma PoblacionClauseDead(i: nat, dbName: string)
    requires i < |Barangays|
    ensures !Contains(Lower(Barangays[i].name), "poblacion")
    ensures PartialMatch(dbName, Lower(Barangays[i].name)) <==>
              || Contains(dbName, Lower(Barangays[i].name))
              || Contains(Lower(Barangays[i].name), dbName)
              || (Contains(dbName, "hawaiian") && Contains(Lower(Barangays[i].name), "hawaiian"))
  {
    var n := Barangays[i].name;
    NamesLackPOrC(i);
    if Lacks(n, 'p', 'P') {
      NoLowerChar(n, 'p', 'P');
      MissingChar(Lower(n), "poblacion", 'p');
    } else {
      NoLowerChar(n, 'c', 'C');
      MissingChar(Lower(n), "poblacion", 'c');
    }
  }

  /** Neither the letter `c` nor its capital `upper` is a character of `n`. */
  predicate Lacks(n: string, c: char, upper: char) {
    forall k :: 0 <= k < |n| ==> n[k] != c && n[k] != upper
  }

  /** Every name of the list lacks a letter of "poblacion" in both cases:
      "Barangay Mambulac" and "Barangay Bagtic" have no `p`, all the others
      no `c`. */
  lemma NamesLackPOrC(i: nat)
    requires i < |Barangays|
    ensures Lacks(Barangays[i].name, 'p', 'P') || Lacks(Barangays[i].name, 'c', 'C')
  {
    var n := Barangays[i].name;
    if i == 5 || i == 8 {
      NamesLackP(n);
    } else {
      NamesLackC(n);
    }
  }

  lemma NamesLackP(n: string)
    requires n == "Barangay Mambulac"
            || n == "Barangay Bagtic"
    ensures Lacks(n, 'p', 'P')
  {
  }

  lemma NamesLackC(n: string)
    requires n == "Barangay 1"
            || n == "Barangay 2"
            || n == "Barangay 3"
            || n == "Barangay 4"
            || n == "Barangay 5"
            || n == "Barangay Guinhalaran"
            || n == "Barangay E-Lopez"
            || n == "Barangay Balaring"
            || n == "Barangay Hawaiian"
            || n == "Barangay Patag"
            || n == "Barangay Kapt. Ramon"
            || n == "Barangay Guimbalaon"
            || n == "Barangay Rizal"
            || n == "Barangay Lantad"
    ensures Lacks(n, 'c', 'C')
  {
  }

  /** Lower-casing yields a letter only from that letter or its capital. */
  lemma NoLowerChar(s: string, c: char, upper: char)
    requires 'a' <= c <= 'z' && upper as int == c as int - 32
    requires Lacks(s, c, upper)
    ensures c !in Lower(s)
  {
  }

  /** The label "Barangay" is contained in every name of the list, so a
      single bucket with that label fills all sixteen rows: the same records
      are counted sixteen times, and the rows' total is not the records'. */
  lemma OneLabelFillsEveryRow(c: PwdCounts)
    ensures forall i :: 0 <= i < 16 ==>
              ReconcileAll(Barangays, [Bucket(Some("Barangay"), c)], PwdCounts(0, 0, 0))[i].counts == c
  {
    var bs := [Bucket(Some("Barangay"), c)];
    forall i | 0 <= i < 16
      ensures ReconcileAll(Barangays, bs, PwdCounts(0, 0, 0))[i].counts == c
    {
      var n := Barangays[i].name;
      assert Lower("Barangay") == "barangay";
      assert Lower(n)[..8] == "barangay";
      assert Matches(Partial, Some("Barangay"), n);
      assert Resolve(bs, n).Some?;
    }
  }

  /** An exact label wins over a label that only matches partially, even
      when the partial one comes first in the sorted bucket list: "Barangay"
      sorts before "Barangay Hawaiian" and is contained in it
      (`PartialLabelFirst`), yet row 10 takes the exact bucket. */
  lemma ExactBeatsPartial(a: PwdCounts, b: PwdCounts)
    ensures var bs := [Bucket(Some("Barangay"), b), Bucket(Some("Barangay Hawaiian"), a)];
            ReconcileAll(Barangays, bs, PwdCounts(0, 0, 0))[10].counts == a
  {
    var bs := [Bucket(Some("Barangay"), b), Bucket(Some("Barangay Hawaiian"), a)];
    assert Barangays[10].name == "Barangay Hawaiian";
    assert !Matches(Exact, bs[0].key, "Barangay Hawaiian");
    assert FindFirst(bs, Exact, "Barangay Hawaiian") == Some(1);
  }

  /** "Barangay" sorts before "Barangay Hawaiian" and matches it in the
      partial tier. */
  lemma PartialLabelFirst()
    ensures StringLess("Barangay", "Barangay Hawaiian")
    ensures Matches(Partial, Some("Barangay"), "Barangay Hawaiian")
  {
    var p, n := "Barangay", "Barangay Hawaiian";
    assert n[..|p|] == p;
    PrefixBeforeName(p, n);
  }

  /** A non-empty proper prefix of a name sorts before it and matches it in
      the partial tier. */
  lemma PrefixBeforeName(p: string, n: string)
    requires p != "" && |p| < |n| && n[..|p|] == p
    ensures StringLess(p, n)
    ensures Matches(Partial, Some(p), n)
  {
    PrefixLess(p, n);
    assert Lower(n)[..|p|] == Lower(p);
    ContainsIff(Lower(n), Lower(p));
    assert OccursAt(Lower(n), Lower(p), 0);
  }

  lemma {:induction false} PrefixLess(p: string, n: string)
    requires |p| < |n| && n[..|p|] == p
    ensures StringLess(p, n)
    decreases |p|
  {
    if p != [] {
      assert n[1..][..|p| - 1] == p[1..];
      PrefixLess(p[1..], n[1..]);
    }
  }

  /** A differently-cased label is taken by the second tier. */
  lemma CaseInsensitiveTier(c: PwdCounts)
    ensures ReconcileAll(Barangays, [Bucket(Some("BARANGAY RIZAL"), c)], PwdCounts(0, 0, 0))[14].counts == c
  {
    var bs := [Bucket(Some("BARANGAY RIZAL"), c)];
    assert Barangays[14].name == "Barangay Rizal";
    assert Lower("BARANGAY RIZAL") == "barangay rizal";
    assert Lower("Barangay Rizal") == "barangay rizal";
    assert Matches(CaseInsensitive, Some("BARANGAY RIZAL"), "Barangay Rizal");
  }
}
