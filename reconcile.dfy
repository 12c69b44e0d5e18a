/** The reconciler shared by getPwdMapData, getYouthMapData and
    getSeniorMapData (controller/controller.js): every barangay of a fixed
    list looks for a bucket of counts among the sorted `$group` results, by
    exact label, then by case-insensitive label, then by a partial match,
    takes the first bucket of the first tier that has one, and zero-fills
    when none does. The three copies in the source differ only in the
    breakdown record `B` they copy. */
module Reconcile {
  import opened Options
  import opened Text

  /** A latitude or longitude, carried unchanged as its decimal spelling. */
  datatype Coordinate = Coordinate(decimal: string)

  /** One entry of the hard-coded barangay list. */
  datatype Barangay = Barangay(name: string, lat: Coordinate, lon: Coordinate, population: nat)

  /** One `$group` result: its label `_id` and the counts it carries. */
  datatype Bucket<B> = Bucket(key: Option<string>, counts: B)

  /** One output row: `{ ...barangay, <counts> }`. */
  datatype Row<B> = Row(name: string, lat: Coordinate, lon: Coordinate, population: nat, counts: B)

  /** The three matching tiers, tried in this order. */
  datatype Tier = Exact | CaseInsensitive | Partial

  function Rank(t: Tier): nat {
    match t
    case Exact => 0
    case CaseInsensitive => 1
    case Partial => 2
  }

  /** The "common variations" test of the third tier, on lower-cased names,
      with `&&` binding tighter than `||`. */
  predicate PartialMatch(dbName: string, mapName: string) {
    || Contains(dbName, mapName)
    || Contains(mapName, dbName)
    || (Contains(dbName, "hawaiian") && Contains(mapName, "hawaiian"))
    || (Contains(dbName, "poblacion") && Contains(mapName, "poblacion"))
  }

  /** Whether a bucket label matches a barangay name under a tier: `_id ===
      name`; `_id && lower(_id) === lower(name)`; and the partial test, which
      also rejects a falsy label first. */
  predicate Matches(t: Tier, key: Option<string>, name: string) {
    match t
    case Exact => key == Some(name)
    case CaseInsensitive => Truthy(key) && Lower(key.value) == Lower(name)
    case Partial => Truthy(key) && PartialMatch(Lower(key.value), Lower(name))
  }

  /** `buckets.find(...)` under one tier: the first matching bucket. */
  function FindFirst<B>(bs: seq<Bucket<B>>, t: Tier, name: string): (r: Option<nat>)
    ensures r.Some? ==> r.value < |bs| && Matches(t, bs[r.value].key, name)
    ensures r.Some? ==> forall j :: 0 <= j < r.value ==> !Matches(t, bs[j].key, name)
    ensures r.None? <==> forall j :: 0 <= j < |bs| ==> !Matches(t, bs[j].key, name)
  {
    if bs == [] then None
    else if Matches(t, bs[0].key, name) then Some(0)
    else match FindFirst(bs[1..], t, name)
      case None => None
      case Some(i) => Some(i + 1)
  }

  /** The bucket a barangay takes and the tier that found it. */
  datatype Hit = Hit(tier: Tier, index: nat)

  /** The three tiers in order, the first one with a match deciding. */
  function Resolve<B>(bs: seq<Bucket<B>>, name: string): (r: Option<Hit>)
    ensures r.Some? ==> r.value.index < |bs| && Matches(r.value.tier, bs[r.value.index].key, name)
    ensures r.Some? ==> forall j :: 0 <= j < r.value.index ==> !Matches(r.value.tier, bs[j].key, name)
    ensures r.Some? ==> forall t, j :: Rank(t) < Rank(r.value.tier) && 0 <= j < |bs| ==> !Matches(t, bs[j].key, name)
    ensures r.None? <==> forall t, j :: 0 <= j < |bs| ==> !Matches(t, bs[j].key, name)
  {
    match FindFirst(bs, Exact, name)
    case Some(i) => Some(Hit(Exact, i))
    case None =>
      match FindFirst(bs, CaseInsensitive, name)
      case Some(i) => Some(Hit(CaseInsensitive, i))
      case None =>
        match FindFirst(bs, Partial, name)
        case Some(i) => Some(Hit(Partial, i))
        case None =>
          AllTiers(bs, name);
          None
  }

  /** Failing each of the three tiers is failing every tier. */
  lemma AllTiers<B>(bs: seq<Bucket<B>>, name: string)
    requires forall j :: 0 <= j < |bs| ==> !Matches(Exact, bs[j].key, name)
    requires forall j :: 0 <= j < |bs| ==> !Matches(CaseInsensitive, bs[j].key, name)
    requires forall j :: 0 <= j < |bs| ==> !Matches(Partial, bs[j].key, name)
    ensures forall t, j :: 0 <= j < |bs| ==> !Matches(t, bs[j].key, name)
  {
    forall t: Tier, j | 0 <= j < |bs| ensures !Matches(t, bs[j].key, name) {
      match t
      case Exact =>
      case CaseInsensitive =>
      case Partial =>
    }
  }

  /** The counts a barangay row receives: the resolved bucket's, or `zero`. */
  function CountsFor<B>(bs: seq<Bucket<B>>, name: string, zero: B): B {
    match Resolve(bs, name)
    case Some(h) => bs[h.index].counts
    case None => zero
  }

  /** The row the callback of `barangayData.map` returns for one barangay. */
  function Merge<B>(b: Barangay, bs: seq<Bucket<B>>, zero: B): Row<B> {
    Row(b.name, b.lat, b.lon, b.population, CountsFor(bs, b.name, zero))
  }

  /** The callback's body as the source writes it: one `find` per tier on
      the bucket list, reassigning the match and the counts through nested
      if/else. */
  method MergeRow<B>(b: Barangay, bs: seq<Bucket<B>>, zero: B) returns (row: Row<B>)
    ensures row.name == b.name && row.lat == b.lat && row.lon == b.lon && row.population == b.population
    ensures row.counts == CountsFor(bs, b.name, zero)
  {
    var countData := FindFirst(bs, Exact, b.name);
    var counts := zero;
    if countData.Some? {
      counts := bs[countData.value].counts;
    } else {
      countData := FindFirst(bs, CaseInsensitive, b.name);
      if countData.Some? {
        counts := bs[countData.value].counts;
      } else {
        countData := FindFirst(bs, Partial, b.name);
        if countData.Some? {
          counts := bs[countData.value].counts;
        }
      }
    }
    row := Row(b.name, b.lat, b.lon, b.population, counts);
  }

  /** `barangayData.map(...)`. */
  function ReconcileAll<B>(list: seq<Barangay>, bs: seq<Bucket<B>>, zero: B): (rows: seq<Row<B>>)
    ensures |rows| == |list|
  {
    seq(|list|, i requires 0 <= i < |list| => Merge(list[i], bs, zero))
  }

  /** One row per barangay, in list order, with name, coordinates and
      population copied; its counts are zero when no bucket matches under any
      tier, and otherwise copied verbatim from a bucket that matches under
      some tier. */
  lemma ReconcileSpec<B>(list: seq<Barangay>, bs: seq<Bucket<B>>, zero: B)
    ensures |ReconcileAll(list, bs, zero)| == |list|
    ensures forall i :: 0 <= i < |list| ==>
              var row := ReconcileAll(list, bs, zero)[i];
              row.name == list[i].name && row.lat == list[i].lat && row.lon == list[i].lon
              && row.population == list[i].population
    ensures forall i :: 0 <= i < |list| ==>
              (forall t, j :: 0 <= j < |bs| ==> !Matches(t, bs[j].key, list[i].name)) ==>
              ReconcileAll(list, bs, zero)[i].counts == zero
    ensures forall i :: 0 <= i < |list| && (exists t, j :: 0 <= j < |bs| && Matches(t, bs[j].key, list[i].name)) ==>
              exists t, j :: 0 <= j < |bs| && Matches(t, bs[j].key, list[i].name)
                             && ReconcileAll(list, bs, zero)[i].counts == bs[j].counts
  {
    forall i | 0 <= i < |list| && (exists t, j :: 0 <= j < |bs| && Matches(t, bs[j].key, list[i].name))
      ensures exists t, j :: 0 <= j < |bs| && Matches(t, bs[j].key, list[i].name)
                             && ReconcileAll(list, bs, zero)[i].counts == bs[j].counts
    {
      var h := Resolve(bs, list[i].name).value;
      assert Matches(h.tier, bs[h.index].key, list[i].name);
    }
  }

  /** A property of the breakdown that the zero record and every bucket
      have holds of every reconciled row. */
  lemma ReconcilePreserves<B>(list: seq<Barangay>, bs: seq<Bucket<B>>, zero: B, p: B -> bool)
    requires p(zero)
    requires forall j :: 0 <= j < |bs| ==> p(bs[j].counts)
    ensures forall i :: 0 <= i < |list| ==> p(ReconcileAll(list, bs, zero)[i].counts)
  {
    forall i | 0 <= i < |list| ensures p(ReconcileAll(list, bs, zero)[i].counts) {
      match Resolve(bs, list[i].name)
      case Some(h) => assert p(bs[h.index].counts);
      case None =>
    }
  }

  /** A null or empty label matches no non-empty name under any tier. */
  lemma FalsyNeverMatches(key: Option<string>, name: string, t: Tier)
    requires !Truthy(key) && name != ""
    ensures !Matches(t, key, name)
  {
  }

  /** The case-insensitive tier is consulted only when no label equals the
      name exactly, and the partial tier only when neither earlier tier has a
      match. */
  lemma TierOrder<B>(bs: seq<Bucket<B>>, name: string)
    ensures FindFirst(bs, Exact, name).Some? ==> Resolve(bs, name) == Some(Hit(Exact, FindFirst(bs, Exact, name).value))
    ensures Resolve(bs, name).Some? && Resolve(bs, name).value.tier == Partial ==>
              FindFirst(bs, Exact, name).None? && FindFirst(bs, CaseInsensitive, name).None?
  {
  }
}
