/**
 * The daily aggregation step of the pipeline (pipeline/aggregate_daily.py):
 * the hourly metric rows of one day are grouped by club in order of first
 * appearance, `None` readings are dropped, and one record is emitted per
 * club that has at least one raw volume, carrying the sum of those volumes
 * and the means of the normalised volumes and of the sentiments.
 *
 * The club id is any type with equality. The day and the rounding of a
 * mean to two places are parameters; the query and the insert are not
 * part of this model.
 */
module AggregateDaily {
  import opened Wrappers

  /** One `time_bucket_metrics` row: `club_id`, `volume_raw`, `volume_normalized`, `sentiment_score`. */
  datatype Metric<K> = Metric(clubId: K, volumeRaw: Option<real>, volumeNormalized: Option<real>, sentiment: Option<real>)

  /** The three lists a group keeps. */
  datatype Field = Raw | Normalized | Sentiment

  /** The reading of a row for one list. */
  function Read<K>(m: Metric<K>, f: Field): Option<real> {
    match f
    case Raw => m.volumeRaw
    case Normalized => m.volumeNormalized
    case Sentiment => m.sentiment
  }

  /** `grouped[club_id]`: the club and its three lists of readings. */
  datatype Group<K> = Group(clubId: K, volumeRaw: seq<real>, volumeNormalized: seq<real>, sentiments: seq<real>)

  /** One `daily_aggregations_v2` record (the two clock stamps are not modelled). */
  datatype Record<K> = Record(clubId: K, aggregationDate: string, volumeTotal: real,
                               volumeNormalized: Option<real>, sentimentScore: Option<real>)

  /** `sum(xs)` */
  function Sum(xs: seq<real>): real {
    if xs == [] then 0.0 else Sum(xs[..|xs| - 1]) + xs[|xs| - 1]
  }

  // ------------------------------------------------------------ grouping, as functions

  /** The club ids of `ms` in order of first appearance: the key order of `grouped`. */
  function Keys<K(==)>(ms: seq<Metric<K>>): seq<K> {
    if ms == [] then []
    else
      var ks := Keys(ms[..|ms| - 1]);
      if ms[|ms| - 1].clubId in ks then ks else ks + [ms[|ms| - 1].clubId]
  }

  /** The non-`None` readings of club `c` for one list, in row order. */
  function Collect<K(==)>(ms: seq<Metric<K>>, c: K, f: Field): seq<real> {
    if ms == [] then []
    else
      var m := ms[|ms| - 1];
      Collect(ms[..|ms| - 1], c, f) + (if m.clubId == c && Read(m, f).Some? then [Read(m, f).value] else [])
  }

  /** The group of club `c` once every row of `ms` is added. */
  function GroupOf<K(==)>(ms: seq<Metric<K>>, c: K): Group<K> {
    Group(c, Collect(ms, c, Raw), Collect(ms, c, Normalized), Collect(ms, c, Sentiment))
  }

  /** `round(sum(xs) / len(xs), 2) if xs else None`, with the rounding as a parameter. */
  function Mean(xs: seq<real>, round2: real -> real): (r: Option<real>)
    ensures r.None? <==> xs == []
  {
    if xs == [] then None else Some(round2(Sum(xs) / (|xs| as real)))
  }

  /** The record of club `c`. */
  function RecordOf<K(==)>(ms: seq<Metric<K>>, c: K, day: string, round2: real -> real): Record<K> {
    Record(c, day, Sum(Collect(ms, c, Raw)), Mean(Collect(ms, c, Normalized), round2), Mean(Collect(ms, c, Sentiment), round2))
  }

  /** The records of the clubs in `keys`, in that order, skipping a club without raw volumes. */
  function Emit<K(==)>(ms: seq<Metric<K>>, keys: seq<K>, day: string, round2: real -> real): seq<Record<K>> {
    if keys == [] then []
    else
      var c := keys[|keys| - 1];
      Emit(ms, keys[..|keys| - 1], day, round2) + (if Collect(ms, c, Raw) != [] then [RecordOf(ms, c, day, round2)] else [])
  }

  /** What `main` hands to the insert: nothing at all for no rows, otherwise the records. */
  function Aggregate<K(==)>(ms: seq<Metric<K>>, day: string, round2: real -> real): (r: Option<seq<Record<K>>>)
    ensures r.None? <==> ms == []
  {
    if ms == [] then None else Some(Emit(ms, Keys(ms), day, round2))
  }

  // ------------------------------------------------------------ what the grouping promises

  /** A club is a key exactly when some row carries it. */
  lemma {:induction false} KeysMember<K>(ms: seq<Metric<K>>, c: K)
    ensures c in Keys(ms) <==> exists i :: 0 <= i < |ms| && ms[i].clubId == c
  {
    if ms != [] {
      var init := ms[..|ms| - 1];
      KeysMember(init, c);
      assert forall i :: 0 <= i < |init| ==> init[i] == ms[i];
      if c != ms[|ms| - 1].clubId && exists i :: 0 <= i < |ms| && ms[i].clubId == c {
        var i :| 0 <= i < |ms| && ms[i].clubId == c;
        assert init[i].clubId == c;
      }
    }
  }

  /** No key repeats. */
  lemma {:induction false} KeysDistinct<K>(ms: seq<Metric<K>>)
    ensures forall i, j :: 0 <= i < j < |Keys(ms)| ==> Keys(ms)[i] != Keys(ms)[j]
  {
    if ms != [] {
      KeysDistinct(ms[..|ms| - 1]);
    }
  }

  /** A list keeps exactly the present readings of its club: `x` is in it iff some row of the club reads `x`. */
  lemma {:induction false} CollectMeaning<K>(ms: seq<Metric<K>>, c: K, f: Field)
    ensures forall x :: x in Collect(ms, c, f) <==>
      exists i :: 0 <= i < |ms| && ms[i].clubId == c && Read(ms[i], f) == Some(x)
    ensures Collect(ms, c, f) == [] <==>
      forall i :: 0 <= i < |ms| && ms[i].clubId == c ==> Read(ms[i], f).None?
  {
    if ms != [] {
      var init := ms[..|ms| - 1];
      CollectMeaning(init, c, f);
      assert forall i :: 0 <= i < |init| ==> init[i] == ms[i];
      forall x | exists i :: 0 <= i < |ms| && ms[i].clubId == c && Read(ms[i], f) == Some(x)
        ensures x in Collect(ms, c, f)
      {
        var i :| 0 <= i < |ms| && ms[i].clubId == c && Read(ms[i], f) == Some(x);
        if i < |ms| - 1 {
          assert x in Collect(init, c, f);
        }
      }
      if Collect(ms, c, f) != [] {
        var x := Collect(ms, c, f)[0];
        assert x in Collect(ms, c, f);
      }
    }
  }

  /** A club that no row carries has empty lists. */
  lemma {:induction false} CollectAbsent<K>(ms: seq<Metric<K>>, c: K, f: Field)
    requires forall i :: 0 <= i < |ms| ==> ms[i].clubId != c
    ensures Collect(ms, c, f) == []
  {
    if ms != [] {
      CollectAbsent(ms[..|ms| - 1], c, f);
    }
  }

  /** The club ids of some records, in order. */
  function ClubIds<K>(rs: seq<Record<K>>): (r: seq<K>)
    ensures |r| == |rs| && forall k :: 0 <= k < |rs| ==> r[k] == rs[k].clubId
  {
    seq(|rs|, k requires 0 <= k < |rs| => rs[k].clubId)
  }

  /** The keys that have raw volumes, in order. */
  function WithRaw<K(==)>(ms: seq<Metric<K>>, keys: seq<K>): seq<K> {
    if keys == [] then []
    else
      var c := keys[|keys| - 1];
      WithRaw(ms, keys[..|keys| - 1]) + (if Collect(ms, c, Raw) != [] then [c] else [])
  }

  /** The records follow the keys that have raw volumes, one each, and each is its club's record. */
  lemma {:induction false} EmitFollowsKeys<K>(ms: seq<Metric<K>>, keys: seq<K>, day: string, round2: real -> real)
    ensures ClubIds(Emit(ms, keys, day, round2)) == WithRaw(ms, keys)
    ensures forall k :: 0 <= k < |Emit(ms, keys, day, round2)| ==>
      Emit(ms, keys, day, round2)[k] == RecordOf(ms, Emit(ms, keys, day, round2)[k].clubId, day, round2)
  {
    if keys != [] {
      var init := keys[..|keys| - 1];
      EmitFollowsKeys(ms, init, day, round2);
      var e0 := Emit(ms, init, day, round2);
      var e := Emit(ms, keys, day, round2);
      assert forall k :: 0 <= k < |e0| ==> e[k] == e0[k];
      assert ClubIds(e) == ClubIds(e0) + (if Collect(ms, keys[|keys| - 1], Raw) != [] then [keys[|keys| - 1]] else []);
    }
  }

  /** Filtering distinct keys keeps them distinct, and keeps exactly the keys with raw volumes. */
  lemma {:induction false} WithRawMeaning<K>(ms: seq<Metric<K>>, keys: seq<K>)
    requires forall i, j :: 0 <= i < j < |keys| ==> keys[i] != keys[j]
    ensures forall c :: c in WithRaw(ms, keys) <==> (c in keys && Collect(ms, c, Raw) != [])
    ensures forall i, j :: 0 <= i < j < |WithRaw(ms, keys)| ==> WithRaw(ms, keys)[i] != WithRaw(ms, keys)[j]
  {
    if keys != [] {
      var init := keys[..|keys| - 1];
      var c := keys[|keys| - 1];
      WithRawMeaning(ms, init);
      assert keys == init + [c];
      assert forall i :: 0 <= i < |init| ==> init[i] == keys[i];
    }
  }

  /**
   * `main`'s output: nothing to insert for no rows; otherwise one record
   * per club that has a raw volume and none for any other club, all on the
   * given day, with the sum of the club's raw volumes and a mean that is
   * `None` exactly when its list is empty.
   */
  lemma AggregateMeaning<K>(ms: seq<Metric<K>>, day: string, round2: real -> real)
    requires ms != []
    ensures forall c :: c in ClubIds(Aggregate(ms, day, round2).value) <==>
      exists i :: 0 <= i < |ms| && ms[i].clubId == c && ms[i].volumeRaw.Some?
    ensures forall k, l :: 0 <= k < l < |Aggregate(ms, day, round2).value| ==>
      Aggregate(ms, day, round2).value[k].clubId != Aggregate(ms, day, round2).value[l].clubId
    ensures forall k :: 0 <= k < |Aggregate(ms, day, round2).value| ==>
      && Aggregate(ms, day, round2).value[k].aggregationDate == day
      && Aggregate(ms, day, round2).value[k].volumeTotal == Sum(Collect(ms, Aggregate(ms, day, round2).value[k].clubId, Raw))
      && (Aggregate(ms, day, round2).value[k].volumeNormalized.None? <==>
          Collect(ms, Aggregate(ms, day, round2).value[k].clubId, Normalized) == [])
      && (Aggregate(ms, day, round2).value[k].sentimentScore.None? <==>
          Collect(ms, Aggregate(ms, day, round2).value[k].clubId, Sentiment) == [])
  {
    var rs := Emit(ms, Keys(ms), day, round2);
    KeysDistinct(ms);
    forall c ensures c in Keys(ms) <==> exists i :: 0 <= i < |ms| && ms[i].clubId == c {
      KeysMember(ms, c);
    }
    EmitFollowsKeys(ms, Keys(ms), day, round2);
    WithRawMeaning(ms, Keys(ms));
    forall c ensures Collect(ms, c, Raw) != [] <==> exists i :: 0 <= i < |ms| && ms[i].clubId == c && ms[i].volumeRaw.Some? {
      CollectMeaning(ms, c, Raw);
    }
    forall k, l | 0 <= k < l < |rs| ensures rs[k].clubId != rs[l].clubId {
      assert ClubIds(rs)[k] == rs[k].clubId && ClubIds(rs)[l] == rs[l].clubId;
    }
  }

  // ------------------------------------------------------------ main

  /** A group with one more row's readings appended, `None` readings left out. */
  function Added<K>(g: Group<K>, m: Metric<K>): Group<K> {
    Group(g.clubId,
          g.volumeRaw + (if m.volumeRaw.Some? then [m.volumeRaw.value] else []),
          g.volumeNormalized + (if m.volumeNormalized.Some? then [m.volumeNormalized.value] else []),
          g.sentiments + (if m.sentiment.Some? then [m.sentiment.value] else []))
  }

  /** One more row changes only its own club's group. */
  lemma GroupOfStep<K>(ms: seq<Metric<K>>, c: K)
    requires ms != []
    ensures GroupOf(ms, c) ==
      if c == ms[|ms| - 1].clubId then Added(GroupOf(ms[..|ms| - 1], c), ms[|ms| - 1]) else GroupOf(ms[..|ms| - 1], c)
  {
  }

  /** A club no row carries has an empty group. */
  lemma GroupOfAbsent<K>(ms: seq<Metric<K>>, c: K)
    requires c !in Keys(ms)
    ensures GroupOf(ms, c) == Group(c, [], [], [])
  {
    KeysMember(ms, c);
    CollectAbsent(ms, c, Raw);
    CollectAbsent(ms, c, Normalized);
    CollectAbsent(ms, c, Sentiment);
  }

  /**
   * The first loop of `main`: `setdefault` opens a club's group at its
   * first row, and each present reading is appended to its list.
   */
  method GroupMetrics<K(==)>(metrics: seq<Metric<K>>) returns (keys: seq<K>, grouped: map<K, Group<K>>)
    ensures keys == Keys(metrics)
    ensures forall c :: c in grouped <==> c in keys
    ensures forall c :: c in grouped ==> grouped[c] == GroupOf(metrics, c)
  {
    keys, grouped := [], map[];
    var i := 0;
    while i < |metrics|
      invariant 0 <= i <= |metrics|
      invariant keys == Keys(metrics[..i])
      invariant forall c :: c in grouped <==> c in keys
      invariant forall c :: c in grouped ==> grouped[c] == GroupOf(metrics[..i], c)
    {
      var m := metrics[i];
      var prefix := metrics[..i + 1];
      assert prefix[..i] == metrics[..i];
      if m.clubId !in grouped {
        GroupOfAbsent(metrics[..i], m.clubId);
        grouped := grouped[m.clubId := Group(m.clubId, [], [], [])];
        keys := keys + [m.clubId];
      }
      var g := grouped[m.clubId];
      ghost var g0 := g;
      if m.volumeRaw.Some? {
        g := g.(volumeRaw := g.volumeRaw + [m.volumeRaw.value]);
      }
      if m.volumeNormalized.Some? {
        g := g.(volumeNormalized := g.volumeNormalized + [m.volumeNormalized.value]);
      }
      if m.sentiment.Some? {
        g := g.(sentiments := g.sentiments + [m.sentiment.value]);
      }
      assert g == Added(g0, m);
      grouped := grouped[m.clubId := g];
      forall c | c in grouped ensures grouped[c] == GroupOf(prefix, c) {
        GroupOfStep(prefix, c);
      }
      i := i + 1;
    }
    assert metrics[..|metrics|] == metrics;
  }

  /**
   * `main` past the query: `None` when there are no rows (nothing is
   * inserted); otherwise the groups are built and walked in key order,
   * a club without raw volumes is skipped, and the list handed to the
   * insert is returned.
   */
  method AggregateDay<K(==)>(metrics: seq<Metric<K>>, day: string, round2: real -> real) returns (inserts: Option<seq<Record<K>>>)
    ensures inserts == Aggregate(metrics, day, round2)
  {
    if metrics == [] {
      return None;
    }
    var keys, grouped := GroupMetrics(metrics);
    var out: seq<Record<K>> := [];
    var j := 0;
    while j < |keys|
      invariant 0 <= j <= |keys|
      invariant out == Emit(metrics, keys[..j], day, round2)
    {
      assert keys[..j + 1][..j] == keys[..j];
      var g := grouped[keys[j]];
      if g.volumeRaw != [] {
        out := out + [Record(g.clubId, day, Sum(g.volumeRaw), Mean(g.volumeNormalized, round2), Mean(g.sentiments, round2))];
      }
      j := j + 1;
    }
    assert keys[..|keys|] == keys;
    return Some(out);
  }
}
