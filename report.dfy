/** The alert e-mail: built only when the audit found something, and then
    exactly one message to exactly one recipient. The mail service itself is
    outside the model; the handler returns the message it would hand over. */
module Report {
  import opened Text

  const ReportHeader: string := "Security Group Audit Report:\n\n"
  const AlertSubject: string := "Security Group Audit Alert"
  const LineBreak: string := "\n"

  /** What the handler does with the mail service on one run. */
  datatype Decision =
    | Skipped
    | Send(source: string, toAddresses: seq<string>, subject: string, body: string)

  /** The message text: the fixed header, then the entries joined by line breaks. */
  function ReportBody(entries: seq<string>): string {
    ReportHeader + Join(entries, LineBreak)
  }

  /** The send-only-if-non-empty guard and the message it sends. */
  function Dispatch(entries: seq<string>, sender: string, recipient: string): (d: Decision)
    ensures d.Skipped? <==> entries == []
    ensures d.Send? ==> d.source == sender && d.toAddresses == [recipient]
    ensures d.Send? ==> d.subject == AlertSubject && d.body == ReportBody(entries)
  {
    if entries == [] then Skipped
    else Send(sender, [recipient], AlertSubject, ReportBody(entries))
  }

  /** The body starts with the header, and after it holds every entry verbatim,
      in input order, each after the previous one and a line break. */
  lemma ReportListsEntriesInOrder(entries: seq<string>, k: nat)
    requires k < |entries|
    ensures ReportBody(entries)[..|ReportHeader|] == ReportHeader
    ensures
      var at := |ReportHeader| + Offset(entries, LineBreak, k);
      at + |entries[k]| <= |ReportBody(entries)|
      && ReportBody(entries)[at..at + |entries[k]|] == entries[k]
      && (k > 0 ==> ReportBody(entries)[at - 1] == '\n')
  {
    var joined := Join(entries, LineBreak);
    var body := ReportBody(entries);
    JoinAt(entries, LineBreak, k);
    if k > 0 {
      JoinSepBefore(entries, LineBreak, k);
    }
    var o := Offset(entries, LineBreak, k);
    var at := |ReportHeader| + o;
    assert body[at..at + |entries[k]|] == joined[o..o + |entries[k]|];
    if k > 0 {
      assert body[at - 1] == joined[o - 1..o][0];
    }
  }

  /** The body holds nothing but the header, the entries and the line breaks between them. */
  lemma ReportBodyLength(entries: seq<string>)
    requires entries != []
    ensures |ReportBody(entries)| == |ReportHeader| + Offset(entries, LineBreak, |entries| - 1) + |entries[|entries| - 1]|
  {
    JoinLength(entries, LineBreak);
  }
}
