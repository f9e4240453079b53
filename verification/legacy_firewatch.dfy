/**
 * The older, single-file version of the action. Its map stores only the
 * reaction count per issue number, its alerts are issue numbers, its
 * message links every issue of the current map, and it persists the map as
 * a bare list of `[number, count]` pairs with no version.
 */
module LegacyFirewatch {

  import opened Optional
  import opened JsMap
  import opened Issues
  import opened Text
  import AlertRule
  import SlackClient

  /** The repository the message links point into, fixed in the code. */
  const ISSUE_LINK_END := ">\n"
  const SITE_LINK := "<https://github.com/"
  const REPO_ISSUES := "hashicorp/terraform-provider-aws/issues/"
  const HEADER_START := "Issues have recieved more than "
  const HEADER_END := " in the configured interval:"

  // ---------------------------------------------------------------------
  // The data file

  /** The data file: absent, unreadable or unparsable, or a list of pairs. */
  datatype DataFile = NoFile | Unparsable | Pairs(entries: PairList<int>)

  /**
   * `JSON.stringify(Array.from(currentMap.entries()))`: the pairs in
   * iteration order, which the next run loads back as the same map.
   */
  function Persist(currentMap: PairList<int>): (file: DataFile)
    ensures file.Pairs?
    ensures Distinct(Keys(currentMap)) ==> Load(file) == currentMap
  {
    FromEntriesOfMap(currentMap);
    Pairs(currentMap)
  }

  /**
   * `new Map(JSON.parse(data))`: each key of the pairs once, in the order of
   * its first pair, with the count of its last; an empty map when there is no
   * file or it cannot be read.
   */
  function Load(file: DataFile): (previousMap: PairList<int>)
    ensures Distinct(Keys(previousMap))
    ensures !file.Pairs? ==> previousMap == []
    ensures file.Pairs? ==> LastWins(previousMap, file.entries)
  {
    if file.Pairs? then
      FromEntriesLastWins(file.entries);
      FromEntries(file.entries)
    else []
  }

  method LoadPreviousMap(file: DataFile) returns (previousMap: PairList<int>)
    ensures previousMap == Load(file)
  {
    previousMap := [];
    if file.Pairs? {
      previousMap := FromEntries(file.entries);
    }
  }

  // ---------------------------------------------------------------------
  // The current map

  /** The value the older map stores for an issue: its reaction total. */
  function TotalCount(issue: Issue): int
  {
    issue.totalReactions
  }

  /** Sets each issue number not yet in the map to its reaction total; the first occurrence wins. */
  method BuildCurrentMap(issues: seq<Issue>) returns (currentMap: PairList<int>)
    ensures currentMap == FirstWins(issues, TotalCount)
    ensures FirstOccurrences(currentMap, issues, TotalCount)
    ensures Distinct(Keys(currentMap))
  {
    currentMap := [];
    for i := 0 to |issues|
      invariant currentMap == FirstWins(issues[..i], TotalCount)
    {
      assert issues[..i + 1][..i] == issues[..i];
      var issue := issues[i];
      if !Has(currentMap, issue.number) {
        currentMap := Set(currentMap, issue.number, issue.totalReactions);
      }
    }
    assert issues[..|issues|] == issues;
    FirstWinsSpec(issues, TotalCount);
  }

  // ---------------------------------------------------------------------
  // The alert rule

  /** The older map stores the count itself. */
  function StoredCount(count: int): int
  {
    count
  }

  /** What the older run reports for a qualifying entry: its key. */
  function KeyOf(entry: (int, int)): int
  {
    entry.0
  }

  /** No alerts on a cold start; otherwise the keys of the qualifying current entries. */
  function Alerts(previousMap: PairList<int>, currentMap: PairList<int>, threshold: int): seq<int>
  {
    AlertRule.Alerts(previousMap, currentMap, threshold, StoredCount, KeyOf)
  }

  /** Walks the current map and pushes the key of every entry the rule selects. */
  method ComputeAlerts(previousMap: PairList<int>, currentMap: PairList<int>, threshold: int)
    returns (alerts: seq<int>)
    ensures alerts == Alerts(previousMap, currentMap, threshold)
    ensures |previousMap| == 0 ==> alerts == []
  {
    alerts := [];
    if |previousMap| > 0 {
      for i := 0 to |currentMap|
        invariant alerts == AlertRule.ScanAlerts(previousMap, currentMap[..i], threshold, StoredCount, KeyOf)
      {
        assert currentMap[..i + 1][..i] == currentMap[..i];
        var (key, value) := currentMap[i];
        if Has(previousMap, key) {
          var diff := value - Get(previousMap, key);
          if diff < 0 {
            diff := diff * -1;
          }
          if diff > threshold {
            alerts := alerts + [key];
          }
        } else {
          if value > threshold {
            alerts := alerts + [key];
          }
        }
      }
      assert currentMap[..|currentMap|] == currentMap;
    }
  }

  /** Distinct positions of a map with distinct keys report distinct keys. */
  lemma KeysReportedDistinct(currentMap: PairList<int>)
    requires Distinct(Keys(currentMap))
    ensures forall a, b :: 0 <= a < b < |currentMap| ==> KeyOf(currentMap[a]) != KeyOf(currentMap[b])
  {
    forall a, b | 0 <= a < b < |currentMap|
      ensures currentMap[a].0 != currentMap[b].0
    {
      assert Keys(currentMap)[a] != Keys(currentMap)[b];
    }
  }

  /**
   * A key of the current map is alerted exactly when the previous map is
   * non-empty and, for a known key, the count moved by strictly more than the
   * threshold, or, for a new key, the count is strictly above it.
   */
  lemma AlertedIff(previousMap: PairList<int>, currentMap: PairList<int>, threshold: int, j: nat)
    requires Distinct(Keys(currentMap)) && j < |currentMap|
    ensures currentMap[j].0 in Alerts(previousMap, currentMap, threshold)
        <==> |previousMap| > 0 &&
             if Has(previousMap, currentMap[j].0)
             then AlertRule.Abs(currentMap[j].1 - Get(previousMap, currentMap[j].0)) > threshold
             else currentMap[j].1 > threshold
  {
    KeysReportedDistinct(currentMap);
    AlertRule.AlertedIff(previousMap, currentMap, threshold, StoredCount, KeyOf, j);
  }

  /** No key is alerted twice. */
  lemma AlertKeysDistinct(previousMap: PairList<int>, currentMap: PairList<int>, threshold: int)
    requires Distinct(Keys(currentMap))
    ensures Distinct(Alerts(previousMap, currentMap, threshold))
  {
    KeysReportedDistinct(currentMap);
    AlertRule.AlertsDistinct(previousMap, currentMap, threshold, StoredCount, KeyOf);
  }

  // ---------------------------------------------------------------------
  // The message

  /** A link to one issue of the fixed repository, on a line of its own. */
  function IssueLine(key: int): (line: string)
    ensures |line| == |SITE_LINK + REPO_ISSUES| + |IntToString(key)| + |ISSUE_LINK_END|
    ensures line[..|SITE_LINK + REPO_ISSUES|] == SITE_LINK + REPO_ISSUES
    ensures line[|SITE_LINK + REPO_ISSUES|..|line| - |ISSUE_LINK_END|] == IntToString(key)
    ensures line[|line| - |ISSUE_LINK_END|..] == ISSUE_LINK_END
  {
    SITE_LINK + REPO_ISSUES + IntToString(key) + ISSUE_LINK_END
  }

  /** The line of one map entry: the link for its key; the count is not shown. */
  function EntryLine(entry: (int, int)): string
  {
    IssueLine(entry.0)
  }

  /** One line per entry of the current map, in iteration order. */
  function IssueLines(currentMap: PairList<int>): (lines: seq<string>)
    ensures |lines| == |currentMap|
    ensures forall i :: 0 <= i < |currentMap| ==> lines[i] == IssueLine(currentMap[i].0)
  {
    Lines(currentMap, EntryLine)
  }

  /** The header: the threshold text inserted verbatim between two fixed parts. */
  function Header(alertThreshold: string): (header: string)
    ensures |header| == |HEADER_START| + |alertThreshold| + |HEADER_END|
    ensures header[..|HEADER_START|] == HEADER_START
    ensures header[|HEADER_START|..|HEADER_START| + |alertThreshold|] == alertThreshold
    ensures header[|HEADER_START| + |alertThreshold|..] == HEADER_END
  {
    HEADER_START + alertThreshold + HEADER_END
  }

  /**
   * With at least one alert, links every issue of the current map (not only
   * the alerted ones) under the header; with none, builds nothing.
   */
  method FormatMessage(currentMap: PairList<int>, alerts: seq<int>, alertThreshold: string, slackChannel: string)
    returns (body: Option<SlackClient.MessageBody>)
    ensures body.Some? <==> |alerts| > 0
    ensures body.Some? ==> body.value == SlackClient.MessageBody(slackChannel, [
              SlackClient.Section(Header(alertThreshold)),
              SlackClient.Divider,
              SlackClient.Section(Concat(IssueLines(currentMap)))
            ])
  {
    body := None;
    if |alerts| > 0 {
      var alertLines := "";
      for i := 0 to |currentMap|
        invariant alertLines == Concat(IssueLines(currentMap[..i]))
      {
        LinesAppend(currentMap, EntryLine, i);
        alertLines := alertLines + IssueLine(currentMap[i].0);
      }
      assert currentMap[..|currentMap|] == currentMap;
      body := Some(SlackClient.MessageBody(slackChannel, [
        SlackClient.Section(Header(alertThreshold)),
        SlackClient.Divider,
        SlackClient.Section(alertLines)
      ]));
    }
  }

  /** The fixed link prefix holds no line break. */
  lemma LinkStartNoNewline()
    ensures NewlineCount(SITE_LINK + REPO_ISSUES) == 0
  {
    assert SITE_LINK == "<https://github.com/";
    NoNewline(SITE_LINK);
    assert REPO_ISSUES == "hashicorp/terraform-provider-aws/issues/";
    NoNewline(REPO_ISSUES);
    NewlineCountAppend(SITE_LINK, REPO_ISSUES);
  }

  lemma LinkEndNewlines()
    ensures NewlineCount(ISSUE_LINK_END) == 1
  {
    NoNewline(">");
    assert NewlineCount("\n") == 1;
    NewlineCountAppend(">", "\n");
    assert ISSUE_LINK_END == ">" + "\n";
  }

  /** Each issue line breaks exactly once, at its end. */
  lemma IssueLineNewlines(key: int)
    ensures NewlineCount(IssueLine(key)) == 1
  {
    LinkStartNoNewline();
    LinkEndNewlines();
    IntToStringNoNewline(key);
    NewlineCountAppend(SITE_LINK + REPO_ISSUES, IntToString(key));
    NewlineCountAppend(SITE_LINK + REPO_ISSUES + IntToString(key), ISSUE_LINK_END);
  }

  /** The message text holds one line per entry of the current map, whatever the alerts are. */
  lemma IssueLinesCount(currentMap: PairList<int>)
    ensures NewlineCount(Concat(IssueLines(currentMap))) == |currentMap|
  {
    var lines := IssueLines(currentMap);
    forall i | 0 <= i < |lines|
      ensures NewlineCount(lines[i]) == 1
    {
      IssueLineNewlines(currentMap[i].0);
    }
    ConcatNewlines(lines);
  }

  /** The i-th entry's link stands, whole, between the links of the entries before and after it. */
  lemma IssueLinesSplit(currentMap: PairList<int>, i: nat)
    requires i < |currentMap|
    ensures Concat(IssueLines(currentMap))
         == Concat(IssueLines(currentMap[..i])) + IssueLine(currentMap[i].0) + Concat(IssueLines(currentMap[i + 1..]))
  {
    LinesSplit(currentMap, EntryLine, i);
  }

  // ---------------------------------------------------------------------
  // One run

  /**
   * Loads the previous map, builds the current one, computes the alerts,
   * formats the message when there is an alert, then persists the current map.
   */
  method Run(file: DataFile, issues: seq<Issue>, threshold: int, alertThreshold: string, slackChannel: string)
    returns (written: DataFile, alerts: seq<int>, message: Option<SlackClient.MessageBody>)
    ensures written == Persist(FirstWins(issues, TotalCount))
    ensures Load(written) == FirstWins(issues, TotalCount)
    ensures alerts == Alerts(Load(file), FirstWins(issues, TotalCount), threshold)
    ensures message.Some? <==> alerts != []
    ensures message.Some? ==> message.value == SlackClient.MessageBody(slackChannel, [
              SlackClient.Section(Header(alertThreshold)),
              SlackClient.Divider,
              SlackClient.Section(Concat(IssueLines(FirstWins(issues, TotalCount))))
            ])
  {
    var previousMap := LoadPreviousMap(file);
    var currentMap := BuildCurrentMap(issues);
    alerts := ComputeAlerts(previousMap, currentMap, threshold);
    message := FormatMessage(currentMap, alerts, alertThreshold, slackChannel);
    written := Persist(currentMap);
  }
}
