# Security-group audit: the insecure-rule report

This project models the audit that `lambda_handler` in
`lambda/security_group_audit.py` runs once per invocation. It walks a listing
of security groups. For each group it walks the inbound permissions, and for
each permission the IPv4 ranges. Every range whose `CidrIp` is exactly
`0.0.0.0/0` adds one report line to a list that starts empty and is only
appended to. When the list is non-empty, one alert e-mail is built: subject
`Security Group Audit Alert`, one recipient, and a body made of the header
`Security Group Audit Report:\n\n` followed by the lines joined with `\n`. The
handler always answers status 200 with `Audit complete. N insecure rules found.`,
where N is the number of lines.

Modules, one per component of the handler:

- `Wrappers` (`wrappers.dfy`): `Option`, for dictionary keys that may be absent; `GetOr` is `dict.get(key, default)`.
- `Collector` (`collector.dfy`): the records (`SecurityGroup`, `Permission`, `IpRange`), their defaults (a missing `GroupName` becomes `Unnamed`; missing `IpPermissions` and `IpRanges` become empty), the report line `RuleInfo`, the recursive specification `InsecureRules`, and the method `CollectInsecureRules`. That method holds the handler's three nested loops, and its loop invariants tie the growing list to the specification.
- `Sites` (`sites.dfy`): the list described by positions. A position (`Site`) is a (group, permission, range) index triple. `OpenSites` collects the open positions by the same prefix recursion as the collector. The characterisation lemma states the list through the non-recursive predicates `IsOpenSite`, `Precedes` and `EntryAt`: one line per position whose range is open to the world, in traversal order (so there is no deduplication), each line naming its own group. The rest of the module is site-level concatenation helpers.
- `Laws` (`laws.dfy`): the list is built by concatenation. Absent fields add nothing, repeated groups are reported again, and the list is empty exactly when no range is open. It also holds concrete scenarios.
- `Text` (`text.dfy`): Python's `sep.join(parts)`, and the offset at which each part lands.
- `Decimal` (`decimal.dfy`): the decimal numeral that f-string interpolation writes for the count, and its parsing inverse.
- `Report` (`report.dfy`): the send-or-skip `Decision` and the message it carries.
- `Handler` (`handler.dfy`): `LambdaHandler`, the summary text, and the end-to-end scenarios.

External effects are inputs and outputs. The security-group listing is a
parameter. The two configured addresses are a `Config` parameter. The e-mail is
a returned `Decision` (`Skipped`, or `Send` with source, recipient list,
subject and body), so one invocation sends at most one message.

Where the code is narrower than a reader might expect, the model follows the code:

- Only `IpRanges`/`CidrIp` is examined. IPv6 ranges and prefix lists are never looked at.
- Matching is exact string equality.
- Each report line mentions `0.0.0.0/0` as fixed text, not the matched range.
- Each report line is itself multi-line: it has a line break after the sentence and another at its end. So the body is not "one line per finding"; the entries are joined by `\n` between them.

## Model

| member | source | states |
|---|---|---|
| Wrappers.Option.GetOr | lambda/security_group_audit.py:20-23 | `dict.get(key, default)`: the value when the key is present, the default when it is absent |
| Collector.GroupName | lambda/security_group_audit.py:20 | definition, no contract: the group's name, or "Unnamed" when absent |
| Collector.Permissions | lambda/security_group_audit.py:22 | definition, no contract: the group's IpPermissions, or the empty list when absent |
| Collector.Ranges | lambda/security_group_audit.py:23 | definition, no contract: the permission's IpRanges, or the empty list when absent |
| Collector.IsOpenToWorld | lambda/security_group_audit.py:24 | definition, no contract: CidrIp is present and exactly "0.0.0.0/0" |
| Collector.RuleInfo | lambda/security_group_audit.py:26-29 | definition, no contract: the report line naming the group, its id and the permission's rendering |
| Collector.InsecureRules | lambda/security_group_audit.py:15-30 | definition, no contract: the specification of the collected list (group, then permission, then range); characterised by Sites.InsecureRulesAreOpenSites and the Laws lemmas |
| Collector.CollectInsecureRules | lambda/security_group_audit.py:15-30 | the three nested loops over groups, permissions and ranges, starting from an empty list and only appending, yield exactly the specified list of insecure rules |
| Sites.InsecureRulesAreOpenSites | lambda/security_group_audit.py:18-30 | the list has one line per (group, permission, range) position whose CidrIp is exactly 0.0.0.0/0, and as many lines as such positions. The positions are strictly in traversal order (group, then permission, then range), so none is merged. Line k names the group id, the group name (or Unnamed) and the permission of its own position. |
| Sites.RangeLevel | lambda/security_group_audit.py:23-30 | within one permission: one line per open range, each the same line for that permission, at positions strictly increasing in range index |
| Sites.PermissionLevel | lambda/security_group_audit.py:22-30 | within one group: one line per open range of any permission, each carrying its own permission, in permission-then-range order |
| Laws.RulesOfConcat | lambda/security_group_audit.py:18-30 | auditing two listings back to back gives the two reports back to back (group order is output order) |
| Laws.PermissionRulesOfConcat | lambda/security_group_audit.py:22-30 | within a group, permissions contribute their lines in order |
| Laws.RulesOfPrefix | lambda/security_group_audit.py:15-30 | what the first i groups produce is a prefix of the final list: appending is the only change to it |
| Laws.AbsentPermissionsContributeNothing | lambda/security_group_audit.py:22 | a group without IpPermissions, wherever it stands, leaves the list unchanged |
| Laws.AbsentRangesContributeNothing | lambda/security_group_audit.py:23 | a permission without IpRanges, wherever it stands, leaves its group's lines unchanged |
| Laws.RepeatedGroupRepeatsRules | lambda/security_group_audit.py:18-30 | a group listed twice is reported twice, in order (no deduplication) |
| Laws.NoRulesIffNoOpenRange | lambda/security_group_audit.py:24 | the list is empty if and only if no range anywhere in the listing has CidrIp exactly 0.0.0.0/0 |
| Laws.OtherRangesYieldNothing | lambda/security_group_audit.py:24 | a range whose CidrIp is absent or any other text is never the position of a line |
| Laws.OneOpenOneInternal | lambda/security_group_audit.py:22-30 | a permission with ranges 0.0.0.0/0 and 10.0.0.0/8 yields exactly one line, for its own group |
| Laws.TwoOpenRangesTwoRules | lambda/security_group_audit.py:23-30 | two open ranges in one permission yield two identical lines |
| Laws.MissingNameUsesPlaceholder | lambda/security_group_audit.py:20-29 | at every open position of a group without GroupName, the list holds the line naming "Unnamed" with that group's id and permission |
| Laws.SingleRangeGroup | lambda/security_group_audit.py:19-30 | a group with one permission holding one range reports one line exactly when that range is open |
| Text.Join | lambda/security_group_audit.py:34 | definition, no contract: Python's `sep.join(parts)`; pinned down by Text.JoinAt, Text.JoinSepBefore and Text.JoinLength |
| Text.JoinAt | lambda/security_group_audit.py:34 | in sep.join(parts), each part appears verbatim at its offset (the lengths of the parts before it, each followed by one sep) |
| Text.JoinSepBefore | lambda/security_group_audit.py:34 | in sep.join(parts), every part but the first is immediately preceded by sep |
| Text.JoinLength | lambda/security_group_audit.py:34 | the joined text ends where the last part ends, so it holds nothing besides the parts and the separators |
| Report.ReportBody | lambda/security_group_audit.py:34 | definition, no contract: the header followed by the entries joined with "\n"; pinned down by Report.ReportListsEntriesInOrder and Report.ReportBodyLength |
| Report.Dispatch | lambda/security_group_audit.py:33-43 | a message is sent exactly when there is at least one entry. It goes from the configured sender to exactly one recipient, with the fixed subject and the header followed by the joined entries. |
| Report.ReportListsEntriesInOrder | lambda/security_group_audit.py:34 | the body starts with the header, then holds every entry verbatim in input order, each after the previous one and a line break |
| Report.ReportBodyLength | lambda/security_group_audit.py:34 | the body is exactly the header, the entries and the line breaks between them |
| Decimal.NatToString | lambda/security_group_audit.py:48 | the count is written as decimal digits only, with no leading zero except for "0" |
| Decimal.ParseNatToString | lambda/security_group_audit.py:48 | reading the written digits back gives the count |
| Decimal.NatToStringInjective | lambda/security_group_audit.py:48 | different counts are written differently |
| Handler.LambdaHandler | lambda/security_group_audit.py:4-49 | one invocation always answers status 200 with the summary of the number of insecure rules. It sends exactly when that number is non-zero, and the message is the report of those rules. |
| Handler.Summary | lambda/security_group_audit.py:48 | definition, no contract: the summary text for a count; pinned down by Handler.SummaryReportsCount |
| Handler.SummaryReportsCount | lambda/security_group_audit.py:48 | the summary is "Audit complete. ", a numeral, " insecure rules found.", and the numeral reads back as the count |
| Handler.SummaryDeterminesCount | lambda/security_group_audit.py:48 | different counts give different summaries |
| Handler.EmptyListing | lambda/security_group_audit.py:15-18 | an empty listing gives no lines, no message, and the summary "Audit complete. 0 insecure rules found." |
| Handler.WebAndDatabaseRules | lambda/security_group_audit.py:18-30 | groups sg-1 (web, open to 0.0.0.0/0) and sg-2 (db, 10.0.0.0/16) give exactly one line, naming web and sg-1 |
| Handler.WebAndDatabase | lambda/security_group_audit.py:33-49 | for that listing one message is sent and the summary is "Audit complete. 1 insecure rules found." |
| Handler.SummaryOfOne | lambda/security_group_audit.py:48 | the summary for one finding is "Audit complete. 1 insecure rules found." |

## Left out

- Creating the EC2 and SES clients, `describe_security_groups` and `send_email` (lines 6-7, 14, 36-43) are network calls. The listing is a parameter, and the message is the returned `Decision`.
- Reading `SES_SENDER` and `SES_RECIPIENT` from the environment (lines 10-11) is I/O. They arrive as a `Config` parameter, so a missing variable (a `KeyError` at that point) is not modelled.
- The text of `{permission}` in the report line is Python's rendering of the permission dictionary. It is kept as an opaque `rendering` string on each `Permission`.
- Failures of the AWS calls and their propagation, paging of the listing, and the unused `event` and `context` arguments are not modelled.
- A group without `GroupId` (a `KeyError` at line 19) is not modelled: `groupId` is a required field.
- A key that is present with the value `None` is not distinguished from an absent key. `Option` models presence only, so a `GroupName` that is present but `None` is not rendered as `None` here.
- An `IpPermissions` or `IpRanges` key present with the value `None` makes the source raise `TypeError` when it iterates (lines 22-23). `Option<seq<…>>` cannot represent that input, so the model never sees it.
