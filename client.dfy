/**
 * The class `Client`: how it obtains its configuration at startup and what
 * one run of its scheduled update task does, with the two HTTP exchanges
 * reduced to their outcomes.
 */
module Client {
  import opened Wrappers
  import opened Config
  import opened UpdateUrl
  import opened Prompt

  /** The service the first request of every iteration asks for the caller's IP. */
  const IpServiceUrl: string := "http://automation.whatismyip.com/n09230945.asp"

  /**
   * The manual entry mode of the constructor: host, domain and password
   * through `getField`, then the refresh rate through `getIntegerField`,
   * all from the same input, and then `new NamecheapConfig` of the four. Any
   * of the three texts may be null (a null read at the prompt), and the
   * constructor's exception is then not caught: startup fails.
   */
  function ManualEntry(parse: string -> Option<int32>, input: seq<Line>): (r: Read<Result<Settings, IllegalArgument>>)
    ensures r.Answer? ==> 0 < r.consumed <= |input|
    ensures r.Answer? && r.value.Success? ==> FirstNull(r.value.value).None?
    ensures r.Answer? && r.value.Success? ==> r.value.value.refreshRate.value > 0
  {
    match GetField(input)
    case Exhausted => Exhausted
    case Answer(host, n1) =>
      match GetField(input[n1..])
      case Exhausted => Exhausted
      case Answer(domain, n2) =>
        match GetField(input[n1..][n2..])
        case Exhausted => Exhausted
        case Answer(password, n3) =>
          match GetIntegerField(parse, input[n1..][n2..][n3..])
          case Exhausted => Exhausted
          case Answer(refreshRate, n4) =>
            Answer(Constructed(Settings(host, domain, password, Some(refreshRate))), n1 + n2 + n3 + n4)
  }

  /**
   * Manual entry takes host, domain and password from the first three
   * successive answers of `getField`, and the refresh rate from the first
   * later answer that parses to a positive number; it ends only when there
   * are such answers.
   */
  lemma {:induction false} ManualEntryTakesSuccessiveAnswers(parse: string -> Option<int32>, input: seq<Line>)
    ensures var r := ManualEntry(parse, input);
      var a := Answers(input);
      && (r.Answer? <==> 3 <= |a| && FirstPositive(parse, a[3..]) < |a| - 3)
      && (r.Answer? ==>
            r.value == Constructed(Settings(a[0], a[1], a[2], Some(ParsedValue(parse, a[3 + FirstPositive(parse, a[3..])])))))
  {
    var a := Answers(input);
    match GetField(input)
    case Exhausted =>
    case Answer(host, n1) =>
      match GetField(input[n1..])
      case Exhausted =>
        assert a == [host];
      case Answer(domain, n2) =>
        match GetField(input[n1..][n2..])
        case Exhausted =>
          AnswersOfTwo(input, host, n1, domain, n2);
        case Answer(password, n3) =>
          var rest := input[n1..][n2..][n3..];
          AnswersOfThree(input, host, n1, domain, n2, password, n3);
          IntegerFieldIsFirstPositiveAnswer(parse, rest);
          var k := FirstPositive(parse, Answers(rest));
          if k < |Answers(rest)| {
            assert a[3 + k] == Answers(rest)[k];
          }
  }

  lemma AnswersOfTwo(input: seq<Line>, host: Line, n1: nat, domain: Line, n2: nat)
    requires GetField(input) == Answer(host, n1)
    requires GetField(input[n1..]) == Answer(domain, n2) && GetField(input[n1..][n2..]).Exhausted?
    ensures Answers(input) == [host, domain]
  {
    assert Answers(input[n1..]) == [domain];
  }

  lemma AnswersOfThree(input: seq<Line>, host: Line, n1: nat, domain: Line, n2: nat, password: Line, n3: nat)
    requires GetField(input) == Answer(host, n1)
    requires GetField(input[n1..]) == Answer(domain, n2) && GetField(input[n1..][n2..]) == Answer(password, n3)
    ensures var a := Answers(input);
      && |a| >= 3 && a[0] == host && a[1] == domain && a[2] == password
      && a[3..] == Answers(input[n1..][n2..][n3..])
  {
    var a := Answers(input);
    var a1 := Answers(input[n1..]);
    var a2 := Answers(input[n1..][n2..]);
    assert a == [host] + a1 && a1 == [domain] + a2;
    assert a2 == [password] + Answers(input[n1..][n2..][n3..]);
    assert a[1..] == a1 && a1[1..] == a2;
    assert a[3..] == a2[1..];
  }

  /**
   * A null read at the host prompt, as after Ctrl-D, followed by further
   * lines: the host is null and startup fails with the constructor's
   * exception for the host.
   */
  lemma NullHostFailsStartup(parse: string -> Option<int32>)
    requires parse("5") == Some(5)
    ensures ManualEntry(parse, [None, Some("www"), Some("example.com"), Some("sekret"), Some("5")])
         == Answer(Failure(NullArgument(Host)), 5)
  {
    var input := [None, Some("www"), Some("example.com"), Some("sekret"), Some("5")];
    assert "www"[0] > ' ' && "example.com"[0] > ' ' && "sekret"[0] > ' ' && "5"[0] > ' ';
    assert input[1..] == [Some("www"), Some("example.com"), Some("sekret"), Some("5")];
    assert GetField(input[1..]) == Answer(Some("www"), 1);
    assert GetField(input) == Answer(None, 2);
    var rest := input[2..];
    assert rest == [Some("example.com"), Some("sekret"), Some("5")];
    assert GetField(rest) == Answer(Some("example.com"), 1);
    assert rest[1..] == [Some("sekret"), Some("5")];
    assert GetField(rest[1..]) == Answer(Some("sekret"), 1);
    assert rest[1..][1..] == [Some("5")];
    assert GetField(rest[1..][1..]) == Answer(Some("5"), 1);
    assert GetIntegerField(parse, rest[1..][1..]) == Answer(5, 1);
  }

  /**
   * The configuration the client runs with. `fromFile` holds the four
   * properties read from namecheap.config (a missing property is null), or
   * None when the file cannot be read or parsed. When the constructor
   * rejects the file's values the mapper reports a mapping error, and the
   * client falls back to manual entry just as for a missing file. A
   * `Failure` is the exception that ends startup.
   */
  function StartupSettings(fromFile: Option<Settings>, parse: string -> Option<int32>, input: seq<Line>): (r: Read<Result<Settings, IllegalArgument>>)
    ensures r.Answer? && r.value.Success? ==> FirstNull(r.value.value).None?
    ensures fromFile.Some? && FirstNull(fromFile.value).None? ==> r == Answer(Success(fromFile.value), 0)
    ensures fromFile.None? || FirstNull(fromFile.value).Some? ==> r == ManualEntry(parse, input)
    ensures r.Answer? && r.value.Success? && r.consumed > 0 ==> r.value.value.refreshRate.value > 0
  {
    match fromFile
    case Some(a) =>
      if FirstNull(a).None? then Answer(Success(a), 0) else ManualEntry(parse, input)
    case None => ManualEntry(parse, input)
  }

  /**
   * What one HTTP exchange (executing the request and reading the body)
   * comes to: the body text; an `IOException` or `ClientProtocolException`,
   * which the task catches; or an unchecked exception, such as the one a
   * response without an entity causes, which it does not catch.
   */
  datatype Exchange = Body(text: string) | CheckedFailure | UncheckedFailure

  /**
   * How a run of the task ends: with the provider's response, with a
   * caught exception, or with an exception that escapes `run()`.
   */
  datatype Outcome = Acknowledged(response: string) | Swallowed | Escaped

  /** The requests one run issues, in order, and how it ends. */
  datatype Iteration = Iteration(requests: seq<string>, outcome: Outcome)

  function FailureOutcome(e: Exchange): Outcome
    requires !e.Body?
  {
    if e.CheckedFailure? then Swallowed else Escaped
  }

  /**
   * One run of the scheduled task. `uriAccepted` says whether `new
   * HttpGet(url)` accepts the update URL as a URI; when it does not, the
   * constructor throws an `IllegalArgumentException` that escapes.
   */
  function RunIteration(s: Settings, ipExchange: Exchange, uriAccepted: string -> bool, updateExchange: Exchange): (it: Iteration)
    ensures 1 <= |it.requests| <= 2 && it.requests[0] == IpServiceUrl
    ensures !ipExchange.Body? ==> it.requests == [IpServiceUrl] && it.outcome == FailureOutcome(ipExchange)
    ensures ipExchange.Body? && !uriAccepted(SettingsUrl(s, ipExchange.text)) ==> it.outcome == Escaped
    ensures |it.requests| == 2 && !updateExchange.Body? ==> it.outcome == FailureOutcome(updateExchange)
    ensures |it.requests| == 2 <==> ipExchange.Body? && uriAccepted(SettingsUrl(s, ipExchange.text))
    ensures |it.requests| == 2 ==> it.requests[1] == SettingsUrl(s, ipExchange.text)
    ensures it.outcome.Acknowledged? <==> |it.requests| == 2 && updateExchange.Body?
    ensures it.outcome.Acknowledged? ==> it.outcome.response == updateExchange.text
  {
    if !ipExchange.Body? then Iteration([IpServiceUrl], FailureOutcome(ipExchange))
    else
      var url := SettingsUrl(s, ipExchange.text);
      if !uriAccepted(url) then Iteration([IpServiceUrl], Escaped)
      else if updateExchange.Body? then Iteration([IpServiceUrl, url], Acknowledged(updateExchange.text))
      else Iteration([IpServiceUrl, url], FailureOutcome(updateExchange))
  }

  /**
   * The update request carries the body of the IP request exactly as read,
   * untrimmed and unchecked, at its end.
   */
  lemma UpdateCarriesIpVerbatim(s: Settings, ipExchange: Exchange, uriAccepted: string -> bool, updateExchange: Exchange)
    ensures var it := RunIteration(s, ipExchange, uriAccepted, updateExchange);
      |it.requests| == 2 ==>
        var url := it.requests[1];
        |ipExchange.text| <= |url| && url[|url| - |ipExchange.text|..] == ipExchange.text && UpdateEndpoint <= url
  {
    if ipExchange.Body? {
      UrlShape(AppendedText(s.host), AppendedText(s.domain), AppendedText(s.password), ipExchange.text);
    }
  }

  /**
   * With a complete configuration whose values contain no `&`, the update
   * request names that configuration's host, domain and password and the IP
   * as read.
   */
  lemma UpdateRequestCarriesConfig(s: Settings, ipExchange: Exchange, uriAccepted: string -> bool, updateExchange: Exchange)
    requires FirstNull(s).None?
    requires NoAmpersand(s.host.value) && NoAmpersand(s.domain.value) && NoAmpersand(s.password.value)
    ensures var it := RunIteration(s, ipExchange, uriAccepted, updateExchange);
      |it.requests| == 2 ==>
        ParseSetIpAddressUrl(it.requests[1]) == Some(UrlFields(s.host.value, s.domain.value, s.password.value, ipExchange.text))
  {
    if ipExchange.Body? {
      ParseBuiltUrl(s.host.value, s.domain.value, s.password.value, ipExchange.text);
    }
  }

  /**
   * An example: host www, domain example.com, password sekret and IP
   * 203.0.113.7 give an acknowledged run whose update request
   * carries exactly those four values.
   */
  lemma ExampleUpdateRequest(uriAccepted: string -> bool, response: string)
    requires uriAccepted(SetIpAddressUrl("www", "example.com", "sekret", "203.0.113.7"))
    ensures var it := RunIteration(Settings(Some("www"), Some("example.com"), Some("sekret"), Some(5)),
                                   Body("203.0.113.7"), uriAccepted, Body(response));
      && it.outcome == Acknowledged(response)
      && |it.requests| == 2
      && ParseSetIpAddressUrl(it.requests[1]) == Some(UrlFields("www", "example.com", "sekret", "203.0.113.7"))
  {
    var s := Settings(Some("www"), Some("example.com"), Some("sekret"), Some(5));
    assert NoAmpersand("www") && NoAmpersand("example.com") && NoAmpersand("sekret");
    UpdateRequestCarriesConfig(s, Body("203.0.113.7"), uriAccepted, Body(response));
  }

  /**
   * How many runs the fixed-rate schedule makes with the configured
   * refresh rate as its period, given the outcome each run would have.
   * `scheduleAtFixedRate` throws for a period that is not positive, so then
   * there is no run at all; otherwise the executor suppresses every run
   * after one whose exception escaped.
   */
  function ScheduledRuns(period: int32, outcomes: seq<Outcome>): (n: nat)
    ensures n <= |outcomes|
    ensures period <= 0 ==> n == 0
    ensures forall i :: 0 <= i < n - 1 ==> !outcomes[i].Escaped?
    ensures period > 0 && n < |outcomes| ==> 0 < n && outcomes[n - 1].Escaped?
  {
    if period <= 0 then 0 else RunsUntilEscape(outcomes)
  }

  /** The runs up to and including the first one whose exception escapes. */
  function RunsUntilEscape(outcomes: seq<Outcome>): (n: nat)
    ensures n <= |outcomes|
    ensures forall i :: 0 <= i < n - 1 ==> !outcomes[i].Escaped?
    ensures n < |outcomes| ==> 0 < n && outcomes[n - 1].Escaped?
  {
    if outcomes == [] then 0
    else if outcomes[0].Escaped? then 1
    else 1 + RunsUntilEscape(outcomes[1..])
  }

  /**
   * A configuration typed in at the console always starts the schedule;
   * one read from namecheap.config with a refresh rate that is not positive
   * is accepted at startup and never runs an update.
   */
  lemma StartupDecidesFirstRun(fromFile: Option<Settings>, parse: string -> Option<int32>, input: seq<Line>, outcomes: seq<Outcome>)
    ensures var r := StartupSettings(fromFile, parse, input);
      r.Answer? && r.value.Success? && 0 < |outcomes| ==>
        var rate := r.value.value.refreshRate.value;
        (ScheduledRuns(rate, outcomes) == 0 <==> r.consumed == 0 && rate <= 0)
  {
  }
}
