/**
 * `formatAlerts`: renders the alert list as the body of a Slack
 * `chat.postMessage` call, a header, a divider and one line per alert.
 */
module SlackClient {

  import opened Issues
  import opened Text

  /**
   * The configuration `formatAlerts` reads: the repository owner and name,
   * the Slack channel, and the `alert_threshold` input as the raw text it
   * arrives as.
   */
  datatype SlackConfig = SlackConfig(owner: string, repo: string, slackChannel: string, alertThreshold: string)

  /** A Slack block: a `section` holding `mrkdwn` text, or a `divider`. */
  datatype Block = Section(mrkdwn: string) | Divider

  /** The `chat.postMessage` body: the channel and the blocks. */
  datatype MessageBody = MessageBody(channel: string, blocks: seq<Block>)

  const HEADER_START := "The following issues have received more than "
  const HEADER_END := " reactions in the configured time interval:"
  const LINK_START := "<https://github.com/"
  const REPO_START := "/"
  const ISSUES_PATH := "/issues/"
  const LABEL_START := "|"
  const LABEL_END := "> - "
  const LINE_END := " reactions\n"

  /** The header sentence, with the threshold text inserted verbatim between two fixed parts. */
  function Header(alertThreshold: string): (header: string)
    ensures |header| == |HEADER_START| + |alertThreshold| + |HEADER_END|
    ensures header[..|HEADER_START|] == HEADER_START
    ensures header[|HEADER_START|..|HEADER_START| + |alertThreshold|] == alertThreshold
    ensures header[|HEADER_START| + |alertThreshold|..] == HEADER_END
  {
    HEADER_START + alertThreshold + HEADER_END
  }

  /**
   * One alert: a link to the issue in the configured repository, labelled
   * with its title, then its reaction count and a line break.
   */
  function AlertLine(slack: SlackConfig, alert: Entry): string
  {
    LINK_START + slack.owner + REPO_START + slack.repo + ISSUES_PATH + IntToString(alert.id)
    + LABEL_START + alert.title + LABEL_END + IntToString(alert.reactions) + LINE_END
  }

  /**
   * Where each field of an alert line stands: `owner` after the site
   * prefix, `repo` after a slash, the id after `/issues/`, the title after
   * `|`, the count after `> - `, and ` reactions` with a line break last.
   */
  lemma AlertLineLayout(slack: SlackConfig, alert: Entry)
    ensures var line, id, count := AlertLine(slack, alert), IntToString(alert.id), IntToString(alert.reactions);
            var atOwner := |LINK_START|;
            var atSlash := atOwner + |slack.owner|;
            var atRepo := atSlash + |REPO_START|;
            var atPath := atRepo + |slack.repo|;
            var atId := atPath + |ISSUES_PATH|;
            var atBar := atId + |id|;
            var atTitle := atBar + |LABEL_START|;
            var atLabelEnd := atTitle + |alert.title|;
            var atCount := atLabelEnd + |LABEL_END|;
            var atEnd := atCount + |count|;
            && |line| == atEnd + |LINE_END|
            && At(line, 0, LINK_START)
            && At(line, atOwner, slack.owner)
            && At(line, atSlash, REPO_START)
            && At(line, atRepo, slack.repo)
            && At(line, atPath, ISSUES_PATH)
            && At(line, atId, id)
            && At(line, atBar, LABEL_START)
            && At(line, atTitle, alert.title)
            && At(line, atLabelEnd, LABEL_END)
            && At(line, atCount, count)
            && At(line, atEnd, LINE_END)
  {
    PiecesAt(LINK_START, slack.owner, REPO_START, slack.repo, ISSUES_PATH, IntToString(alert.id),
             LABEL_START, alert.title, LABEL_END, IntToString(alert.reactions), LINE_END);
  }

  /** One line per alert, in the order of the alerts. */
  function AlertLines(slack: SlackConfig, alerts: seq<Entry>): (lines: seq<string>)
    ensures |lines| == |alerts|
    ensures forall i :: 0 <= i < |alerts| ==> lines[i] == AlertLine(slack, alerts[i])
  {
    Lines(alerts, alert => AlertLine(slack, alert))
  }

  /** The text of the third block: the alert lines one after another. */
  function AlertText(slack: SlackConfig, alerts: seq<Entry>): string
  {
    Concat(AlertLines(slack, alerts))
  }

  /** The message `formatAlerts` builds for `alerts`. */
  predicate IsAlertMessage(body: MessageBody, slack: SlackConfig, alerts: seq<Entry>)
  {
    && body.channel == slack.slackChannel
    && body.blocks == [Section(Header(slack.alertThreshold)), Divider, Section(AlertText(slack, alerts))]
  }

  /**
   * Builds the alert text by appending one line per alert, then the
   * three-block body addressed to the configured channel.
   */
  method FormatAlerts(alerts: seq<Entry>, slack: SlackConfig) returns (body: MessageBody)
    ensures body.channel == slack.slackChannel
    ensures |body.blocks| == 3
    ensures body.blocks[0] == Section(Header(slack.alertThreshold))
    ensures body.blocks[1] == Divider
    ensures body.blocks[2] == Section(AlertText(slack, alerts))
    ensures IsAlertMessage(body, slack, alerts)
  {
    var alertLines := "";
    for i := 0 to |alerts|
      invariant alertLines == AlertText(slack, alerts[..i])
    {
      AlertTextAppend(slack, alerts, i);
      alertLines := alertLines + AlertLine(slack, alerts[i]);
    }
    assert alerts[..|alerts|] == alerts;
    body := MessageBody(slack.slackChannel, [Section(Header(slack.alertThreshold)), Divider, Section(alertLines)]);
  }

  /** Appending the next alert appends its line to the text. */
  lemma AlertTextAppend(slack: SlackConfig, alerts: seq<Entry>, i: nat)
    requires i < |alerts|
    ensures AlertText(slack, alerts[..i + 1]) == AlertText(slack, alerts[..i]) + AlertLine(slack, alerts[i])
  {
    LinesAppend(alerts, alert => AlertLine(slack, alert), i);
  }

  /** Lines are only ever appended: the text is as long as all alert lines together. */
  lemma AlertTextLength(slack: SlackConfig, alerts: seq<Entry>)
    ensures |AlertText(slack, alerts)| == TotalLength(AlertLines(slack, alerts))
    ensures alerts == [] ==> AlertText(slack, alerts) == ""
  {
    ConcatLength(AlertLines(slack, alerts));
  }

  /** The i-th alert's line stands, whole, between the lines of the alerts before it and after it. */
  lemma AlertTextSplit(slack: SlackConfig, alerts: seq<Entry>, i: nat)
    requires i < |alerts|
    ensures AlertText(slack, alerts)
         == AlertText(slack, alerts[..i]) + AlertLine(slack, alerts[i]) + AlertText(slack, alerts[i + 1..])
  {
    LinesSplit(alerts, alert => AlertLine(slack, alert), i);
  }

  /** An alert line breaks exactly once, at its end, unless owner, repository or title hold a line break. */
  lemma AlertLineNewlines(slack: SlackConfig, alert: Entry)
    ensures NewlineCount(AlertLine(slack, alert))
         == 1 + NewlineCount(slack.owner) + NewlineCount(slack.repo) + NewlineCount(alert.title)
  {
    var id := IntToString(alert.id);
    var count := IntToString(alert.reactions);
    IntToStringNoNewline(alert.id);
    IntToStringNoNewline(alert.reactions);
    assert LINK_START == "<https://github.com/";
    NoNewline(LINK_START);
    assert REPO_START == "/";
    NoNewline(REPO_START);
    assert ISSUES_PATH == "/issues/";
    NoNewline(ISSUES_PATH);
    assert LABEL_START == "|";
    NoNewline(LABEL_START);
    assert LABEL_END == "> - ";
    NoNewline(LABEL_END);
    NoNewline(" reactions");
    assert NewlineCount("\n") == 1;
    NewlineCountAppend(" reactions", "\n");
    assert LINE_END == " reactions" + "\n";
    var s1 := LINK_START + slack.owner;
    NewlineCountAppend(LINK_START, slack.owner);
    var s2 := s1 + REPO_START;
    NewlineCountAppend(s1, REPO_START);
    var s3 := s2 + slack.repo;
    NewlineCountAppend(s2, slack.repo);
    var s4 := s3 + ISSUES_PATH;
    NewlineCountAppend(s3, ISSUES_PATH);
    var s5 := s4 + id;
    NewlineCountAppend(s4, id);
    var s6 := s5 + LABEL_START;
    NewlineCountAppend(s5, LABEL_START);
    var s7 := s6 + alert.title;
    NewlineCountAppend(s6, alert.title);
    var s8 := s7 + LABEL_END;
    NewlineCountAppend(s7, LABEL_END);
    var s9 := s8 + count;
    NewlineCountAppend(s8, count);
    NewlineCountAppend(s9, LINE_END);
  }

  /** With no line break in owner, repository or any title, the text holds exactly one line per alert. */
  lemma AlertTextNewlines(slack: SlackConfig, alerts: seq<Entry>)
    requires NewlineCount(slack.owner) == 0 && NewlineCount(slack.repo) == 0
    requires forall a :: a in alerts ==> NewlineCount(a.title) == 0
    ensures NewlineCount(AlertText(slack, alerts)) == |alerts|
  {
    var lines := AlertLines(slack, alerts);
    forall i | 0 <= i < |lines|
      ensures NewlineCount(lines[i]) == 1
    {
      AlertLineNewlines(slack, alerts[i]);
    }
    ConcatNewlines(lines);
  }

  /** With no threshold configured, the header holds two spaces where the number would be. */
  lemma HeaderWithoutThreshold()
    ensures Header("") == "The following issues have received more than " + " reactions in the configured time interval:"
  {
    assert HEADER_START + "" == HEADER_START;
  }

  /** The numbers of the example below, in decimal. */
  lemma ExampleNumbers()
    ensures IntToString(1) == "1" && IntToString(54) == "54"
  {
    assert NatToString(5) == "5";
  }

  /** The pieces of the example line below, laid end to end. */
  lemma ExamplePieces()
    ensures LINK_START + "" + REPO_START + "" + ISSUES_PATH + "1" + LABEL_START + "title" + LABEL_END + "54" + LINE_END
         == "<https://github.com///issues/1|title> - 54 reactions\n"
  {
    assert LINK_START + "" + REPO_START + "" == "<https://github.com//";
    assert "<https://github.com//" + ISSUES_PATH + "1" == "<https://github.com///issues/1";
    assert "<https://github.com///issues/1" + LABEL_START + "title" == "<https://github.com///issues/1|title";
    assert "<https://github.com///issues/1|title" + LABEL_END + "54" == "<https://github.com///issues/1|title> - 54";
  }

  /** One alert, with owner and repository unset, as the source's own test formats it. */
  lemma AlertTextExample()
    ensures AlertText(SlackConfig("", "", "", ""), [Entry(54, "title", 1)])
         == "<https://github.com///issues/1|title> - 54 reactions\n"
  {
    var slack, alert := SlackConfig("", "", "", ""), Entry(54, "title", 1);
    assert AlertLines(slack, [alert]) == [AlertLine(slack, alert)];
    ConcatSingle(AlertLine(slack, alert));
    ExampleNumbers();
    ExamplePieces();
  }
}
