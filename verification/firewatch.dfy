/**
 * One run of the action: choose the newest `firewatch` artifact, load the
 * previous snapshot from it, build the current snapshot from the open
 * issues, write it back, and alert on issues whose reaction count moved by
 * more than the threshold.
 */
module Firewatch {

  import opened Optional
  import opened JsMap
  import opened Issues
  import AlertRule
  import SlackClient

  /** The snapshot format version a run writes and the only one it trusts. */
  const FORMAT_VERSION := "1.0"

  /** The name under which every run uploads its snapshot. */
  const ARTIFACT_NAME := "firewatch"

  // ---------------------------------------------------------------------
  // Choosing the previous artifact

  /** An entry of the repository's artifact list; `createdAt` is its creation time as a number. */
  datatype Artifact = Artifact(name: string, expired: bool, createdAt: int, archiveDownloadUrl: string)

  /** An artifact a run may restore from: a snapshot upload that has not expired. */
  predicate Eligible(a: Artifact)
  {
    a.name == ARTIFACT_NAME && !a.expired
  }

  /**
   * The artifact whose archive is downloaded: of the eligible ones, the
   * newest, and of several equally new the one listed first (the sort is
   * stable). None when no artifact is eligible.
   */
  method SelectArtifact(artifacts: seq<Artifact>) returns (chosen: Option<Artifact>)
    ensures chosen.None? <==> forall a :: a in artifacts ==> !Eligible(a)
    ensures chosen.Some? ==> chosen.value in artifacts && Eligible(chosen.value)
    ensures chosen.Some? ==> forall a :: a in artifacts && Eligible(a) ==> a.createdAt <= chosen.value.createdAt
    ensures chosen.Some? ==>
              exists i :: 0 <= i < |artifacts| && artifacts[i] == chosen.value &&
                forall j :: 0 <= j < i && Eligible(artifacts[j]) ==> artifacts[j].createdAt < chosen.value.createdAt
  {
    chosen := None;
    ghost var at := 0;
    for i := 0 to |artifacts|
      invariant chosen.None? <==> forall j :: 0 <= j < i ==> !Eligible(artifacts[j])
      invariant chosen.Some? ==> 0 <= at < i && artifacts[at] == chosen.value && Eligible(chosen.value)
      invariant chosen.Some? ==> forall j :: 0 <= j < i && Eligible(artifacts[j]) ==> artifacts[j].createdAt <= chosen.value.createdAt
      invariant chosen.Some? ==> forall j :: 0 <= j < at && Eligible(artifacts[j]) ==> artifacts[j].createdAt < chosen.value.createdAt
    {
      var candidate := artifacts[i];
      if Eligible(candidate) && (chosen.None? || candidate.createdAt > chosen.value.createdAt) {
        chosen := Some(candidate);
        at := i;
      }
    }
  }

  // ---------------------------------------------------------------------
  // The snapshot file

  /**
   * The snapshot file as the run finds it after the download: absent,
   * unreadable (reading it, `JSON.parse` or `new Map` throws), or a parsed
   * document whose `version` is a string or is missing (`None`).
   */
  datatype DataFile =
    | NoFile
    | Unparsable
    | Document(version: Option<string>, data: PairList<Entry>)

  /** A document this run's format can read. */
  predicate Trusted(file: DataFile)
  {
    file.Document? && file.version == Some(FORMAT_VERSION)
  }

  /**
   * The document a run writes: the current version and the map's entries in
   * iteration order. The next run trusts it and reads the same map back.
   */
  function Encode(currentMap: PairList<Entry>): (file: DataFile)
    ensures Trusted(file)
    ensures Distinct(Keys(currentMap)) ==> Decode(file) == currentMap
  {
    FromEntriesOfMap(currentMap);
    Document(Some(FORMAT_VERSION), currentMap)
  }

  /**
   * The previous map a file yields: an empty baseline unless the document is
   * trusted, and then `new Map(data)`: each key of the data once, in the
   * order of its first pair, with the entry of its last pair.
   */
  function Decode(file: DataFile): (previousMap: PairList<Entry>)
    ensures Distinct(Keys(previousMap))
    ensures !Trusted(file) ==> previousMap == []
    ensures Trusted(file) ==> LastWins(previousMap, file.data)
    ensures Trusted(file) ==> (previousMap == [] <==> file.data == [])
  {
    if Trusted(file) then
      FromEntriesLastWins(file.data);
      FromEntries(file.data)
    else []
  }

  /**
   * Starts from an empty map and replaces it only when the file parses and
   * carries the current version; any other outcome leaves the baseline empty.
   */
  method LoadPreviousMap(file: DataFile) returns (previousMap: PairList<Entry>)
    ensures previousMap == Decode(file)
  {
    previousMap := [];
    match file {
      case Document(version, data) =>
        if version == Some(FORMAT_VERSION) {
          previousMap := FromEntries(data);
        }
      case _ =>
    }
  }

  // ---------------------------------------------------------------------
  // The current map

  /** The entry stored for an issue: its reaction total, title and number. */
  function EntryOf(issue: Issue): Entry
  {
    Entry(issue.totalReactions, issue.title, issue.number)
  }

  /** Every entry is stored under its own issue number, and no number twice. */
  predicate WellKeyed(m: PairList<Entry>)
  {
    Distinct(Keys(m)) && forall j :: 0 <= j < |m| ==> m[j].1.id == m[j].0
  }

  /**
   * Visits the issues in search order and sets each number not yet in the
   * map; the first occurrence of a number wins.
   */
  method BuildCurrentMap(issues: seq<Issue>) returns (currentMap: PairList<Entry>)
    ensures currentMap == FirstWins(issues, EntryOf)
    ensures FirstOccurrences(currentMap, issues, EntryOf)
    ensures WellKeyed(currentMap)
  {
    currentMap := [];
    for i := 0 to |issues|
      invariant currentMap == FirstWins(issues[..i], EntryOf)
    {
      assert issues[..i + 1][..i] == issues[..i];
      var issue := issues[i];
      if !Has(currentMap, issue.number) {
        currentMap := Set(currentMap, issue.number, EntryOf(issue));
      }
    }
    assert issues[..|issues|] == issues;
    CurrentMapWellKeyed(issues);
  }

  /**
   * The current map's keys are the distinct issue numbers, each entry's id is
   * its key and its reaction count the total of the number's first issue.
   */
  lemma CurrentMapWellKeyed(issues: seq<Issue>)
    ensures FirstOccurrences(FirstWins(issues, EntryOf), issues, EntryOf)
    ensures WellKeyed(FirstWins(issues, EntryOf))
    ensures forall j :: 0 <= j < |FirstWins(issues, EntryOf)| ==>
              FirstWins(issues, EntryOf)[j].1.reactions ==
              issues[FirstIndex(Numbers(issues), FirstWins(issues, EntryOf)[j].0)].totalReactions
  {
    FirstWinsSpec(issues, EntryOf);
  }

  // ---------------------------------------------------------------------
  // The alert rule

  /** The count the rule compares: the entry's reaction total. */
  function Reactions(value: Entry): int
  {
    value.reactions
  }

  /** What a run reports for a qualifying entry: the whole entry. */
  function Reported(entry: (int, Entry)): Entry
  {
    entry.1
  }

  predicate Qualifies(previousMap: PairList<Entry>, key: int, value: Entry, threshold: int)
  {
    AlertRule.Qualifies(previousMap, key, value, threshold, Reactions)
  }

  /** The alerts of a run: none on a cold start, otherwise the qualifying current entries. */
  function Alerts(previousMap: PairList<Entry>, currentMap: PairList<Entry>, threshold: int): seq<Entry>
  {
    AlertRule.Alerts(previousMap, currentMap, threshold, Reactions, Reported)
  }

  /**
   * Walks the current map in iteration order and pushes each entry the rule
   * selects; nothing is pushed while the previous map is empty.
   */
  method ComputeAlerts(previousMap: PairList<Entry>, currentMap: PairList<Entry>, threshold: int)
    returns (alerts: seq<Entry>)
    ensures alerts == Alerts(previousMap, currentMap, threshold)
    ensures |previousMap| == 0 ==> alerts == []
  {
    alerts := [];
    if |previousMap| > 0 {
      for i := 0 to |currentMap|
        invariant alerts == AlertRule.ScanAlerts(previousMap, currentMap[..i], threshold, Reactions, Reported)
      {
        assert currentMap[..i + 1][..i] == currentMap[..i];
        var (key, value) := currentMap[i];
        if Has(previousMap, key) {
          var diff := value.reactions - Get(previousMap, key).reactions;
          if diff < 0 {
            diff := diff * -1;
          }
          if diff > threshold {
            alerts := alerts + [value];
          }
        } else if value.reactions > threshold {
          alerts := alerts + [value];
        }
      }
      assert currentMap[..|currentMap|] == currentMap;
    }
  }

  /** In a well-keyed map, distinct positions hold distinct entries. */
  lemma WellKeyedEntriesDistinct(currentMap: PairList<Entry>)
    requires WellKeyed(currentMap)
    ensures forall a, b :: 0 <= a < b < |currentMap| ==> Reported(currentMap[a]) != Reported(currentMap[b])
  {
    forall a, b | 0 <= a < b < |currentMap|
      ensures currentMap[a].1.id != currentMap[b].1.id
    {
      assert Keys(currentMap)[a] != Keys(currentMap)[b];
    }
  }

  /** Of a well-keyed current map, an entry is reported exactly when the rule selects it. */
  lemma AlertedIff(previousMap: PairList<Entry>, currentMap: PairList<Entry>, threshold: int, j: nat)
    requires WellKeyed(currentMap) && j < |currentMap|
    ensures currentMap[j].1 in Alerts(previousMap, currentMap, threshold)
        <==> |previousMap| > 0 && Qualifies(previousMap, currentMap[j].0, currentMap[j].1, threshold)
  {
    WellKeyedEntriesDistinct(currentMap);
    AlertRule.AlertedIff(previousMap, currentMap, threshold, Reactions, Reported, j);
  }

  /** An issue in both maps is reported iff its count moved by strictly more than the threshold. */
  lemma KnownIssueAlert(previousMap: PairList<Entry>, currentMap: PairList<Entry>, threshold: int, j: nat)
    requires WellKeyed(currentMap) && j < |currentMap|
    requires |previousMap| > 0 && Has(previousMap, currentMap[j].0)
    ensures currentMap[j].1 in Alerts(previousMap, currentMap, threshold)
        <==> AlertRule.Abs(currentMap[j].1.reactions - Get(previousMap, currentMap[j].0).reactions) > threshold
  {
    AlertedIff(previousMap, currentMap, threshold, j);
  }

  /** An issue the previous map lacks is reported iff its count is strictly above the threshold. */
  lemma NewIssueAlert(previousMap: PairList<Entry>, currentMap: PairList<Entry>, threshold: int, j: nat)
    requires WellKeyed(currentMap) && j < |currentMap|
    requires |previousMap| > 0 && !Has(previousMap, currentMap[j].0)
    ensures currentMap[j].1 in Alerts(previousMap, currentMap, threshold) <==> currentMap[j].1.reactions > threshold
  {
    AlertedIff(previousMap, currentMap, threshold, j);
  }

  /** No issue is reported twice. */
  lemma AlertIdsDistinct(previousMap: PairList<Entry>, currentMap: PairList<Entry>, threshold: int)
    requires WellKeyed(currentMap)
    ensures forall i, j :: 0 <= i < j < |Alerts(previousMap, currentMap, threshold)| ==>
              Alerts(previousMap, currentMap, threshold)[i].id != Alerts(previousMap, currentMap, threshold)[j].id
  {
    var alerts := Alerts(previousMap, currentMap, threshold);
    var idx := AlertRule.AlertsSelection(previousMap, currentMap, threshold, Reactions, Reported);
    forall i, j | 0 <= i < j < |alerts|
      ensures alerts[i].id != alerts[j].id
    {
      assert Keys(currentMap)[idx[i]] != Keys(currentMap)[idx[j]];
    }
  }

  // ---------------------------------------------------------------------
  // One run

  /**
   * Loads the previous map, builds and writes the current one, computes the
   * alerts, and formats a message only when there is at least one alert.
   */
  method Run(file: DataFile, issues: seq<Issue>, threshold: int, slack: SlackClient.SlackConfig)
    returns (written: DataFile, alerts: seq<Entry>, message: Option<SlackClient.MessageBody>)
    ensures written == Encode(FirstWins(issues, EntryOf))
    ensures Decode(written) == FirstWins(issues, EntryOf)
    ensures alerts == Alerts(Decode(file), FirstWins(issues, EntryOf), threshold)
    ensures message.Some? <==> alerts != []
    ensures message.Some? ==> SlackClient.IsAlertMessage(message.value, slack, alerts)
  {
    var previousMap := LoadPreviousMap(file);
    var currentMap := BuildCurrentMap(issues);
    written := Encode(currentMap);
    alerts := ComputeAlerts(previousMap, currentMap, threshold);
    message := None;
    if |alerts| > 0 {
      var body := SlackClient.FormatAlerts(alerts, slack);
      message := Some(body);
    }
  }
}
