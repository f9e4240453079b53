/**
 * The alert rule both versions of the action apply: walk the current map in
 * iteration order and, once there is a previous map at all, report every
 * entry whose reaction count moved by strictly more than the threshold (a
 * known issue) or is strictly above it (a new issue). The versions differ
 * only in what a map value holds (`count` reads the reaction count from it)
 * and in what they report for an entry (`report`).
 */
module AlertRule {

  import opened JsMap

  function Abs(x: int): nat
  {
    if x < 0 then -x else x
  }

  /**
   * Whether one current entry raises an alert against a non-empty previous
   * map. For a known issue the direction of the change does not matter, and
   * an unchanged count never alerts under a non-negative threshold.
   */
  function Qualifies<V>(previousMap: PairList<V>, key: int, value: V, threshold: int, count: V -> int): (alerted: bool)
    ensures Has(previousMap, key) ==>
              (alerted <==> (count(value) - count(Get(previousMap, key)) > threshold ||
                             count(Get(previousMap, key)) - count(value) > threshold))
    ensures Has(previousMap, key) && count(value) == count(Get(previousMap, key)) && threshold >= 0 ==> !alerted
  {
    if Has(previousMap, key) then Abs(count(value) - count(Get(previousMap, key))) > threshold
    else count(value) > threshold
  }

  /** What is reported for the qualifying entries of `entries`, in their order. */
  function ScanAlerts<V, U>(previousMap: PairList<V>, entries: PairList<V>, threshold: int,
                            count: V -> int, report: ((int, V)) -> U): (alerts: seq<U>)
    ensures |alerts| <= |entries|
  {
    if entries == [] then []
    else
      var n := |entries| - 1;
      ScanAlerts(previousMap, entries[..n], threshold, count, report)
      + if Qualifies(previousMap, entries[n].0, entries[n].1, threshold, count) then [report(entries[n])] else []
  }

  /** The alerts of a run: none on a cold start, otherwise one per qualifying current entry at most. */
  function Alerts<V, U>(previousMap: PairList<V>, currentMap: PairList<V>, threshold: int,
                        count: V -> int, report: ((int, V)) -> U): (alerts: seq<U>)
    ensures |previousMap| == 0 ==> alerts == []
    ensures |alerts| <= |currentMap|
  {
    if |previousMap| > 0 then ScanAlerts(previousMap, currentMap, threshold, count, report) else []
  }

  /** The positions of `entries` that qualify, in increasing order. */
  function Selected<V>(previousMap: PairList<V>, entries: PairList<V>, threshold: int, count: V -> int): seq<nat>
  {
    if entries == [] then []
    else
      var n := |entries| - 1;
      Selected(previousMap, entries[..n], threshold, count)
      + if Qualifies(previousMap, entries[n].0, entries[n].1, threshold, count) then [n] else []
  }

  lemma {:induction false} SelectedBounds<V>(previousMap: PairList<V>, entries: PairList<V>, threshold: int, count: V -> int)
    ensures forall i :: 0 <= i < |Selected(previousMap, entries, threshold, count)| ==>
              Selected(previousMap, entries, threshold, count)[i] < |entries|
    ensures forall i, j :: 0 <= i < j < |Selected(previousMap, entries, threshold, count)| ==>
              Selected(previousMap, entries, threshold, count)[i] < Selected(previousMap, entries, threshold, count)[j]
  {
    if entries != [] {
      SelectedBounds(previousMap, entries[..|entries| - 1], threshold, count);
    }
  }

  lemma {:induction false} SelectedReports<V, U>(previousMap: PairList<V>, entries: PairList<V>, threshold: int,
                                                 count: V -> int, report: ((int, V)) -> U)
    ensures |Selected(previousMap, entries, threshold, count)| == |ScanAlerts(previousMap, entries, threshold, count, report)|
    ensures forall i :: 0 <= i < |Selected(previousMap, entries, threshold, count)| ==>
              Selected(previousMap, entries, threshold, count)[i] < |entries| &&
              ScanAlerts(previousMap, entries, threshold, count, report)[i]
                == report(entries[Selected(previousMap, entries, threshold, count)[i]])
  {
    if entries != [] {
      var n := |entries| - 1;
      SelectedBounds(previousMap, entries, threshold, count);
      SelectedReports(previousMap, entries[..n], threshold, count, report);
      var prior := Selected(previousMap, entries[..n], threshold, count);
      forall i | 0 <= i < |prior|
        ensures entries[..n][prior[i]] == entries[prior[i]]
      {
      }
    }
  }

  lemma {:induction false} SelectedMembers<V>(previousMap: PairList<V>, entries: PairList<V>, threshold: int, count: V -> int)
    ensures forall j :: 0 <= j < |entries| ==>
              (j in Selected(previousMap, entries, threshold, count)
               <==> Qualifies(previousMap, entries[j].0, entries[j].1, threshold, count))
  {
    if entries != [] {
      var n := |entries| - 1;
      var front := entries[..n];
      SelectedMembers(previousMap, front, threshold, count);
      SelectedBounds(previousMap, front, threshold, count);
      var prior := Selected(previousMap, front, threshold, count);
      assert n !in prior;
      forall j | 0 <= j < n
        ensures front[j] == entries[j]
      {
      }
    }
  }

  /**
   * The alerts are what is reported for the current entries at strictly
   * increasing positions `idx`, and a position is among them exactly when
   * the previous map is non-empty and the entry there qualifies. So a cold
   * start alerts nothing, the order is the map's, and every qualifying entry
   * is reported once.
   */
  lemma AlertsSelection<V, U>(previousMap: PairList<V>, currentMap: PairList<V>, threshold: int,
                              count: V -> int, report: ((int, V)) -> U)
    returns (idx: seq<nat>)
    ensures |idx| == |Alerts(previousMap, currentMap, threshold, count, report)|
    ensures forall i :: 0 <= i < |idx| ==>
              idx[i] < |currentMap| &&
              Alerts(previousMap, currentMap, threshold, count, report)[i] == report(currentMap[idx[i]])
    ensures forall i, j :: 0 <= i < j < |idx| ==> idx[i] < idx[j]
    ensures forall j :: 0 <= j < |currentMap| ==>
              (j in idx <==> |previousMap| > 0 && Qualifies(previousMap, currentMap[j].0, currentMap[j].1, threshold, count))
  {
    if |previousMap| == 0 {
      idx := [];
    } else {
      idx := Selected(previousMap, currentMap, threshold, count);
      SelectedBounds(previousMap, currentMap, threshold, count);
      SelectedReports(previousMap, currentMap, threshold, count, report);
      SelectedMembers(previousMap, currentMap, threshold, count);
    }
  }

  /** When distinct entries are reported differently, an entry is reported exactly when it qualifies. */
  lemma AlertedIff<V, U>(previousMap: PairList<V>, currentMap: PairList<V>, threshold: int,
                         count: V -> int, report: ((int, V)) -> U, j: nat)
    requires j < |currentMap|
    requires forall a, b :: 0 <= a < b < |currentMap| ==> report(currentMap[a]) != report(currentMap[b])
    ensures report(currentMap[j]) in Alerts(previousMap, currentMap, threshold, count, report)
        <==> |previousMap| > 0 && Qualifies(previousMap, currentMap[j].0, currentMap[j].1, threshold, count)
  {
    var alerts := Alerts(previousMap, currentMap, threshold, count, report);
    var idx := AlertsSelection(previousMap, currentMap, threshold, count, report);
    if report(currentMap[j]) in alerts {
      var i :| 0 <= i < |alerts| && alerts[i] == report(currentMap[j]);
      assert idx[i] == j;
    }
    if j in idx {
      var i :| 0 <= i < |idx| && idx[i] == j;
      assert alerts[i] == report(currentMap[j]);
    }
  }

  /** When distinct entries are reported differently, nothing is reported twice. */
  lemma AlertsDistinct<V, U>(previousMap: PairList<V>, currentMap: PairList<V>, threshold: int,
                             count: V -> int, report: ((int, V)) -> U)
    requires forall a, b :: 0 <= a < b < |currentMap| ==> report(currentMap[a]) != report(currentMap[b])
    ensures forall i, j :: 0 <= i < j < |Alerts(previousMap, currentMap, threshold, count, report)| ==>
              Alerts(previousMap, currentMap, threshold, count, report)[i]
                != Alerts(previousMap, currentMap, threshold, count, report)[j]
  {
    var alerts := Alerts(previousMap, currentMap, threshold, count, report);
    var idx := AlertsSelection(previousMap, currentMap, threshold, count, report);
    forall i, j | 0 <= i < j < |alerts|
      ensures alerts[i] != alerts[j]
    {
      assert idx[i] < idx[j];
    }
  }
}
