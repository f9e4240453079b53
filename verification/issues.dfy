/**
 * Issues as the search API returns them, the entries the snapshot stores,
 * and the first-write-wins rule both versions of the action use to build
 * the current map.
 */
module Issues {

  import opened JsMap

  /** An issue search result: `number`, `title` and `reactions.total_count`. */
  datatype Issue = Issue(number: int, title: string, totalReactions: int)

  /** What the versioned snapshot stores per issue: `{reactions, title, id}`. */
  datatype Entry = Entry(reactions: int, title: string, id: int)

  /** The issue numbers, in the order the search returned them. */
  function Numbers(issues: seq<Issue>): (ns: seq<int>)
    ensures |ns| == |issues|
    ensures forall i :: 0 <= i < |issues| ==> ns[i] == issues[i].number
  {
    seq(|issues|, i requires 0 <= i < |issues| => issues[i].number)
  }

  /**
   * The map left by visiting `issues` in order and, for a number the map does
   * not hold yet, setting it to `value(issue)`; later duplicates are skipped.
   */
  function FirstWins<V>(issues: seq<Issue>, value: Issue -> V): PairList<V>
  {
    if issues == [] then []
    else
      var n := |issues| - 1;
      var m := FirstWins(issues[..n], value);
      if Has(m, issues[n].number) then m else Set(m, issues[n].number, value(issues[n]))
  }

  /**
   * `m` holds each distinct number of `issues` once, exactly the numbers that
   * occur, ordered by first appearance, each with the value of its first
   * occurrence.
   */
  ghost predicate FirstOccurrences<V>(m: PairList<V>, issues: seq<Issue>, value: Issue -> V)
  {
    && Distinct(Keys(m))
    && (forall k :: k in Keys(m) <==> k in Numbers(issues))
    && (forall j :: 0 <= j < |m| ==>
          m[j].0 in Numbers(issues) &&
          m[j].1 == value(issues[FirstIndex(Numbers(issues), m[j].0)]))
    && (forall i, j :: 0 <= i < j < |m| ==>
          m[i].0 in Numbers(issues) && m[j].0 in Numbers(issues) &&
          FirstIndex(Numbers(issues), m[i].0) < FirstIndex(Numbers(issues), m[j].0))
  }

  /** A further issue leaves the first occurrence of every earlier number where it was. */
  lemma NumbersAppend(prior: seq<Issue>, x: Issue)
    ensures Numbers(prior + [x]) == Numbers(prior) + [x.number]
    ensures forall k :: k in Numbers(prior) ==>
              FirstIndex(Numbers(prior + [x]), k) == FirstIndex(Numbers(prior), k)
  {
    assert Numbers(prior + [x]) == Numbers(prior) + [x.number];
    forall k | k in Numbers(prior)
      ensures FirstIndex(Numbers(prior + [x]), k) == FirstIndex(Numbers(prior), k)
    {
      FirstIndexAppend(Numbers(prior), [x.number], k);
    }
  }

  /** A duplicate number changes nothing. */
  lemma SkipDuplicate<V>(m: PairList<V>, prior: seq<Issue>, x: Issue, value: Issue -> V)
    requires FirstOccurrences(m, prior, value)
    requires x.number in Numbers(prior)
    ensures FirstOccurrences(m, prior + [x], value)
  {
    NumbersAppend(prior, x);
  }

  /** A new number is appended with the value of this, its first, occurrence. */
  lemma AddFirstOccurrence<V>(m: PairList<V>, prior: seq<Issue>, x: Issue, value: Issue -> V)
    requires FirstOccurrences(m, prior, value)
    requires x.number !in Numbers(prior)
    ensures FirstOccurrences(m + [(x.number, value(x))], prior + [x], value)
  {
    var issues := prior + [x];
    var r := m + [(x.number, value(x))];
    NumbersAppend(prior, x);
    FirstIndexUnique(Numbers(issues), x.number, |prior|);
    assert Keys(r) == Keys(m) + [x.number];
    forall j | 0 <= j < |m|
      ensures FirstIndex(Numbers(issues), r[j].0) < FirstIndex(Numbers(issues), x.number)
    {
      assert m[j].0 in Keys(m);
    }
  }

  /**
   * The built map holds each distinct issue number once, exactly the numbers
   * that occur, ordered by first appearance, each with the value of its first
   * occurrence.
   */
  lemma {:induction false} FirstWinsSpec<V>(issues: seq<Issue>, value: Issue -> V)
    ensures FirstOccurrences(FirstWins(issues, value), issues, value)
  {
    if issues != [] {
      var n := |issues| - 1;
      var prior := issues[..n];
      var x := issues[n];
      assert issues == prior + [x];
      FirstWinsSpec(prior, value);
      var before := FirstWins(prior, value);
      if Has(before, x.number) {
        SkipDuplicate(before, prior, x, value);
      } else {
        AddFirstOccurrence(before, prior, x, value);
      }
    }
  }
}
