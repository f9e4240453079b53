# firewatch: snapshot, diff and alert pipeline in Dafny

firewatch is a GitHub Action that watches the reaction counts on a
repository's open issues. Each run:

1. picks the newest unexpired `firewatch` artifact and restores the
   snapshot file from it;
2. searches the open issues and builds the current map, keyed by issue
   number, where the first occurrence of a number wins;
3. writes the current map back as `{version: '1.0', data: [[number, entry], ...]}`;
4. alerts on every issue whose count moved by strictly more than the
   threshold since the previous snapshot (a new issue alerts when its
   count alone is strictly above the threshold). A run with an empty
   previous map alerts on nothing;
5. renders the alerts as a three-block Slack message.

The model keeps the source's imperative form. The builder loop, the alert
loop and the line-accumulating loops are methods with loop invariants.
Each is proved equal to a specification function, and the lemmas beside
it prove what the source promises about that function. The artifact scan
is a method whose ensures state the selection properties directly.

A JavaScript `Map` is an insertion-ordered list of `(key, value)` pairs
(`JsMap`). `set` on a present key keeps its position and replaces its
value. `new Map(pairs)` sets the pairs in order. The parsed snapshot file
is a structured value, not JSON text.

Files:
- `js_map.dfy`: the `Map` operations the code uses (`has`, `get`, `set`, `new Map(entries)`).
- `issues.dfy`: issues, snapshot entries, and the first-write-wins builder rule.
- `alert_rule.dfy`: the alert rule, which both versions share. It is generic in what a map value holds and in what is reported for an alerted entry.
- `text.dfy`: number rendering, line counting, and string concatenation.
- `slack_client.dfy`: `formatAlerts` from `src/slackClient.js`.
- `firewatch.dfy`: the run in `src/index.js`.
- `legacy_firewatch.dfy`: the older run in the root `index.js`. It stores plain counts, alerts on keys, links every current issue in its message, and persists an unversioned pair list.
- `optional.dfy`: an `Option` type.

Facts about the code that the model follows:
- Alert lines read `<https://github.com/{owner}/{repo}/issues/{id}|{title}> - {reactions} reactions\n`.
- The header names the threshold but not the time window.
- Among equally new artifacts, the one listed first is chosen, because `Array.prototype.sort` is stable.

## Model

| member | source | states |
|---|---|---|
| JsMap.Set | src/index.js:85-89 | `map.set` on a new key appends it. On a present key only that key's entry changes: it keeps its position and takes the new value, and every other entry stays as it was. Afterwards `get` returns the new value |
| JsMap.FromEntries | src/index.js:58 | `new Map(pairs)` yields distinct keys, and exactly the keys that occur in the pair list |
| JsMap.FromEntriesLastWins | src/index.js:58 | For `new Map(pairs)`, a repeated key keeps the position of its first pair and holds the value of its last pair. The keys are in the order of their first pairs |
| JsMap.FromEntriesOfMap | src/index.js:58 | Loading a map's own entry list gives back the same map: same keys, order and values |
| Issues.SkipDuplicate | src/index.js:84 | An issue whose number is already in the map leaves the first-occurrence map unchanged |
| Issues.AddFirstOccurrence | src/index.js:84-90 | An issue with a new number is appended with its own value, and the map stays a first-occurrence map |
| Issues.FirstWinsSpec | src/index.js:83-91 | The built map holds each distinct issue number once, exactly the numbers that occur, ordered by first appearance, each with the value of its first occurrence |
| Firewatch.SelectArtifact | src/index.js:17-27 | None exactly when no artifact is named `firewatch` and unexpired. Otherwise the choice is such an artifact, no eligible artifact is newer, and every eligible artifact listed before it is strictly older |
| Firewatch.Decode | src/index.js:48-64 | A missing file, a parse failure or a version other than `'1.0'` gives an empty baseline. A `'1.0'` document gives `new Map(data)`: each key of the data once, in first-appearance order, with the entry of its last pair. It is empty only if the data is empty |
| Firewatch.LoadPreviousMap | src/index.js:48-69 | The conditionally reassigned `previousMap` equals the decoded baseline |
| Firewatch.Encode | src/index.js:98-101 | The written `{version: '1.0', data: entries}` passes the next run's version check, and it decodes back to the current map with the same keys, order and entries |
| Firewatch.BuildCurrentMap | src/index.js:83-91 | The loop builds the first-write-wins map. Each entry's id is its key, and no key repeats |
| Firewatch.CurrentMapWellKeyed | src/index.js:85-89 | Each entry of the current map has `id` equal to its key and `reactions` equal to `total_count` of the first issue with that number |
| Firewatch.ComputeAlerts | src/index.js:110-125 | The loop's alerts equal the specified alert list, and they are empty when the previous map is empty |
| Firewatch.AlertedIff | src/index.js:114-123 | For a current map as built, an entry is in the alerts iff the previous map is non-empty and the rule selects it |
| Firewatch.KnownIssueAlert | src/index.js:115-120 | An issue in both maps is alerted iff the absolute reaction difference is strictly greater than the threshold |
| Firewatch.NewIssueAlert | src/index.js:121-122 | An issue absent from the previous map is alerted iff its reaction count is strictly greater than the threshold |
| Firewatch.AlertIdsDistinct | src/index.js:114-124 | No issue id appears twice among the alerts |
| Firewatch.Run | src/index.js:37-133 | The written file is exactly the encoded current map, and it decodes back to that map. The alerts are those of the decoded baseline against the current map. A message exists iff there is an alert, and it is the `formatAlerts` body for those alerts |
| AlertRule.Qualifies | src/index.js:115-123 | For a known issue the rule alerts iff the count rose or fell by strictly more than the threshold, so the direction does not matter. An unchanged count never alerts under a non-negative threshold |
| AlertRule.Alerts | src/index.js:110-125 | No alert on a cold start (empty previous map), and never more alerts than current entries |
| AlertRule.AlertsSelection | src/index.js:110-125 | The alerts are what is reported for the current entries at strictly increasing positions. A position is among them iff the previous map is non-empty and the rule selects its entry. So there is a cold-start gate, current-map order, and a subsequence |
| AlertRule.AlertedIff | src/index.js:114-124 | When distinct entries are reported differently, an entry is reported iff the previous map is non-empty and it qualifies |
| AlertRule.AlertsDistinct | src/index.js:114-124 | When distinct entries are reported differently, nothing is reported twice |
| SlackClient.FormatAlerts | src/slackClient.js:5-37 | The body's channel is the configured channel. It has exactly three blocks: the header with the threshold, a divider, and the concatenated alert lines |
| SlackClient.Header | src/slackClient.js:18 | The header is the fixed opening, then the threshold text verbatim, then the fixed ending |
| SlackClient.AlertLineLayout | src/slackClient.js:8 | Each field of an alert line stands at its own offset, in this order: `<https://github.com/`, the owner, `/`, the repository, `/issues/`, the decimal id, a vertical bar, the title, `> - `, the decimal reaction count, and ` reactions` with a line break |
| SlackClient.AlertLines | src/slackClient.js:7-9 | There is one line per alert, in input order |
| SlackClient.AlertLineNewlines | src/slackClient.js:8 | A line breaks exactly once, plus any line breaks inside owner, repository or title |
| SlackClient.HeaderWithoutThreshold | src/slackClient.test.js:13 | With no threshold configured, the header is the fixed opening and the fixed ending with nothing between them |
| SlackClient.AlertTextExample | src/slackClient.test.js:25 | One alert with id 1, title `title` and 54 reactions, owner and repository unset, formats to the exact text the test expects |
| SlackClient.AlertTextNewlines | src/slackClient.js:6-9 | Without line breaks in owner, repository and titles, the text holds exactly one line per alert |
| SlackClient.AlertTextAppend | src/slackClient.js:7-9 | Each iteration of the loop appends exactly the next alert's line to the text |
| SlackClient.AlertTextLength | src/slackClient.js:6-9 | The text is as long as all lines together, and empty for no alerts |
| SlackClient.AlertTextSplit | src/slackClient.js:7-9 | Each alert's line appears whole, after the lines of the alerts before it and before those after it |
| Text.IntToString | src/slackClient.js:8 | A number interpolated into a line renders as a leading `-` exactly when it is negative, followed by decimal digits that read back, left to right, as its absolute value, with no leading zero |
| Text.NatToString | src/slackClient.js:8 | The decimal digits of a non-negative number read back as that number; there is one digit exactly below ten and no leading zero |
| LegacyFirewatch.Load | index.js:17-28 | No file or a read/parse failure gives an empty map. A pair list gives `new Map(pairs)`: each key once, in first-appearance order, with the count of its last pair |
| LegacyFirewatch.LoadPreviousMap | index.js:17-28 | The conditionally reassigned `previousMap` equals the loaded map |
| LegacyFirewatch.Persist | index.js:122 | The persisted file is an unversioned pair list, and it loads back to the same map: keys, order and counts |
| LegacyFirewatch.BuildCurrentMap | index.js:46-50 | The map keeps the first `total_count` seen per issue number. Its keys are distinct and in first-appearance order |
| LegacyFirewatch.ComputeAlerts | index.js:54-71 | The loop's alerts equal the specified key list, and they are empty when the previous map is empty |
| LegacyFirewatch.AlertedIff | index.js:58-68 | A key is alerted iff the previous map is non-empty and either it is known with a count difference strictly above the threshold, or it is new with a count strictly above it |
| LegacyFirewatch.AlertKeysDistinct | index.js:57-71 | No key is alerted twice |
| LegacyFirewatch.Header | index.js:88 | The header is the fixed opening (with the source's spelling), then the threshold text verbatim, then the fixed ending |
| LegacyFirewatch.IssueLine | index.js:78 | Each line is the fixed `hashicorp/terraform-provider-aws` link prefix, then the key as decimal text, then `>` and a line break |
| LegacyFirewatch.IssueLineNewlines | index.js:78 | Each line breaks exactly once |
| LegacyFirewatch.IssueLines | index.js:77-79 | There is one link line per current-map entry, in map order |
| LegacyFirewatch.IssueLinesCount | index.js:76-79 | The message text has exactly one line per current-map entry, whatever the alerts are |
| LegacyFirewatch.IssueLinesSplit | index.js:77-79 | Each entry's link appears whole, between the links before and after it |
| LegacyFirewatch.FormatMessage | index.js:75-102 | A body exists iff there is an alert. It is exactly a message to the configured channel with three blocks: the header section, a divider, and a section with the lines for every current-map entry |
| LegacyFirewatch.Run | index.js:7-126 | The written file is exactly the persisted current map, and it loads back to that map. The alerts are those of the loaded map against it. A message exists iff there is an alert, and it is exactly the header section, a divider, and a section listing every current issue, sent to the configured channel |

## Left out

- GitHub API calls are not modelled: artifact listing, the archive download request and the paginated issue search. The artifact list and the issue list are inputs.
- Zip extraction and all file reads and writes are not modelled. The snapshot file is the input `DataFile`, and the written file is an output value.
- JSON text parsing and serialisation are not modelled. A parse failure, or a `new Map` over malformed data, is the `Unparsable` case. A document whose `data` is missing gives an empty map in the code. Here that is a document with empty `data`.
- `sendAlerts` is not modelled. It is an asynchronous HTTP POST whose outcome is only logged. So is the commented-out POST in the root `index.js`.
- The search cutoff date (`setMonth`, `toISOString`) is not modelled. It is JavaScript `Date` arithmetic and only shapes the search query.
- Configuration reading (`core.getInput`, splitting `GITHUB_REPOSITORY`), `core.info`, `core.setFailed`, `console.log` and the `main`/`try` wrapper are not modelled. `setFailed` does not stop a run, so a failed load continues with an empty baseline, as modelled.
- Firewatch.ComputeAlerts: the threshold is an integer. The code compares against the `alert_threshold` input string, which JavaScript converts to a number: an empty string acts as 0, and a non-numeric one makes every comparison false. The Slack header embeds the raw string.
- LegacyFirewatch.ComputeAlerts: the same integer threshold, for the same reason.
- Firewatch.SelectArtifact: the in-place sort is not modelled. Its only use is element 0, and the method computes that element directly with one scan. It uses `createdAt` as a number and does not model `new Date` parsing of the timestamp.
- Firewatch.Decode: previous entries are typed records. An entry in the file without a numeric `reactions` field (which the code would compare as `NaN`) is not modelled.
- Reaction counts and issue numbers are exact integers. JavaScript's double precision above 2^53 and its exponent notation for very large numbers in template strings are not modelled.
