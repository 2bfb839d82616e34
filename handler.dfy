/** The audit's entry point: collect the insecure rules, decide on the alert,
    and answer with status 200 and a summary carrying the count. The group
    listing and the two configured addresses arrive as parameters. */
module Handler {
  import opened Wrappers
  import opened Decimal
  import opened Collector
  import opened Report
  import Text
  import opened Laws

  /** The two addresses the deployment configures: the alert's sender and its recipient. */
  datatype Config = Config(sender: string, recipient: string)

  /** The handler's answer to the invocation. */
  datatype Response = Response(statusCode: int, body: string)

  const SummaryPrefix: string := "Audit complete. "
  const SummarySuffix: string := " insecure rules found."

  function Summary(count: nat): string {
    SummaryPrefix + NatToString(count) + SummarySuffix
  }

  /** The summary carries the count as a plain decimal numeral between its fixed words. */
  lemma SummaryReportsCount(count: nat)
    ensures
      var s := Summary(count);
      var mid := s[|SummaryPrefix|..|s| - |SummarySuffix|];
      |SummaryPrefix| + |SummarySuffix| < |s|
      && s[..|SummaryPrefix|] == SummaryPrefix
      && s[|s| - |SummarySuffix|..] == SummarySuffix
      && (forall i :: 0 <= i < |mid| ==> IsDigit(mid[i]))
      && ParseDecimal(mid) == count
  {
    var s := Summary(count);
    assert s[|SummaryPrefix|..|s| - |SummarySuffix|] == NatToString(count);
    assert s[|s| - |SummarySuffix|..] == SummarySuffix;
    ParseNatToString(count);
  }

  /** Different counts give different summaries. */
  lemma SummaryDeterminesCount(n: nat, m: nat)
    requires Summary(n) == Summary(m)
    ensures n == m
  {
    SummaryReportsCount(n);
    SummaryReportsCount(m);
  }

  /** One invocation: the collection loop, the guarded alert, the summary. */
  method LambdaHandler(groups: seq<SecurityGroup>, config: Config) returns (response: Response, email: Decision)
    ensures response.statusCode == 200
    ensures response.body == Summary(|InsecureRules(groups)|)
    // Restates the send guard of Dispatch at the handler level.
    ensures email.Send? <==> InsecureRules(groups) != []
    ensures email == Dispatch(InsecureRules(groups), config.sender, config.recipient)
  {
    var insecureRules := CollectInsecureRules(groups);
    if insecureRules != [] {
      var messageBody := ReportHeader + Text.Join(insecureRules, LineBreak);
      email := Send(config.sender, [config.recipient], AlertSubject, messageBody);
    } else {
      email := Skipped;
    }
    response := Response(200, Summary(|insecureRules|));
  }

  /** An empty listing: nothing found, no mail, and the summary reports 0. */
  lemma EmptyListing(config: Config)
    ensures InsecureRules([]) == []
    ensures Dispatch(InsecureRules([]), config.sender, config.recipient) == Skipped
    ensures Summary(0) == "Audit complete. 0 insecure rules found."
  {
    assert NatToString(0) == "0";
    assert SummaryPrefix + "0" + SummarySuffix == "Audit complete. 0 insecure rules found.";
  }

  /** Two named groups, one open to the world and one internal: one line, for the open group. */
  lemma WebAndDatabaseRules(webRule: string, dbRule: string)
    ensures
      var web := Permission(Some([IpRange(Some("0.0.0.0/0"))]), webRule);
      var db := Permission(Some([IpRange(Some("10.0.0.0/16"))]), dbRule);
      InsecureRules([SecurityGroup("sg-1", Some("web"), Some([web])), SecurityGroup("sg-2", Some("db"), Some([db]))])
        == [RuleInfo("web", "sg-1", web)]
  {
    var web := Permission(Some([IpRange(Some("0.0.0.0/0"))]), webRule);
    var db := Permission(Some([IpRange(Some("10.0.0.0/16"))]), dbRule);
    var sg1 := SecurityGroup("sg-1", Some("web"), Some([web]));
    var sg2 := SecurityGroup("sg-2", Some("db"), Some([db]));
    SingleRangeGroup(sg1, web, IpRange(Some("0.0.0.0/0")));
    SingleRangeGroup(sg2, db, IpRange(Some("10.0.0.0/16")));
    assert "10.0.0.0/16" != Unrestricted by { assert "10.0.0.0/16"[1] != Unrestricted[1]; }
    assert GroupName(sg1) == "web";
    assert [sg1, sg2][..1] == [sg1] && [sg1][..0] == [];
    assert InsecureRules([sg1]) == InsecureRules([]) + GroupRules(sg1);
  }

  /** For that listing the handler sends one message and reports 1. */
  lemma WebAndDatabase(config: Config, webRule: string, dbRule: string)
    ensures
      var web := Permission(Some([IpRange(Some("0.0.0.0/0"))]), webRule);
      var db := Permission(Some([IpRange(Some("10.0.0.0/16"))]), dbRule);
      var rules := InsecureRules([SecurityGroup("sg-1", Some("web"), Some([web])), SecurityGroup("sg-2", Some("db"), Some([db]))]);
      Dispatch(rules, config.sender, config.recipient).Send?
      && Summary(|rules|) == "Audit complete. 1 insecure rules found."
  {
    WebAndDatabaseRules(webRule, dbRule);
    SummaryOfOne();
  }

  lemma SummaryOfOne()
    ensures Summary(1) == "Audit complete. 1 insecure rules found."
  {
    assert NatToString(1) == "1";
    assert SummaryPrefix + "1" + SummarySuffix == "Audit complete. 1 insecure rules found.";
  }
}
