/**
 * The decisions `main` makes before any analysis: which input mode the
 * flags select, which controls spreadsheet to read, and which threat report
 * the analysis step is handed.
 */
module Cli {
  import opened Wrappers
  import opened UrlSources
  import opened Extraction
  import opened ThreatReport

  /** The parsed command line: `--interactive`, `--feed`, `--tr` and `--cr`. */
  datatype Args = Args(interactive: bool, feed: Option<string>, tr: Option<string>, cr: Option<string>)

  /** Python truthiness of an optional path: an absent path and an empty one are both false. */
  predicate Given(path: Option<string>)
  {
    path.Some? && path.value != ""
  }

  /** Where the threat table comes from. */
  datatype Mode = Interactive | FeedFile(path: string) | ExistingReport(path: string) | ShowUsage

  /**
   * `if args.interactive or args.feed: … elif args.tr: … else: usage`:
   * `--interactive` wins over `--feed`, and `--tr` is looked at only when
   * neither is set.
   */
  function SelectMode(args: Args): (m: Mode)
    ensures m.Interactive? <==> args.interactive
    ensures m.FeedFile? <==> !args.interactive && Given(args.feed)
    ensures m.ExistingReport? <==> !args.interactive && !Given(args.feed) && Given(args.tr)
    ensures m.ShowUsage? <==> !args.interactive && !Given(args.feed) && !Given(args.tr)
    ensures m.FeedFile? ==> m.path == args.feed.value
    ensures m.ExistingReport? ==> m.path == args.tr.value
  {
    if args.interactive then Interactive
    else if Given(args.feed) then FeedFile(args.feed.value)
    else if Given(args.tr) then ExistingReport(args.tr.value)
    else ShowUsage
  }

  /**
   * Once a URL mode is chosen, `--tr` is ignored; `--cr` never influences
   * the mode; and an empty `--feed` or `--tr` counts as not given.
   */
  lemma ModeIndependence(args: Args, tr: Option<string>, cr: Option<string>)
    ensures (args.interactive || Given(args.feed)) ==> SelectMode(args.(tr := tr)) == SelectMode(args)
    ensures SelectMode(args.(cr := cr)) == SelectMode(args)
    ensures SelectMode(args.(feed := Some(""))) == SelectMode(args.(feed := None))
    ensures SelectMode(args.(tr := Some(""))) == SelectMode(args.(tr := None))
  {
  }

  /** `args.cr or config.get("Files", "controls_report_filename")`. */
  function ControlsPath(args: Args, configured: string): (path: string)
    ensures (args.cr.Some? && path == args.cr.value) || path == configured
    ensures Given(args.cr) ==> path == args.cr.value
    ensures path != "" <==> Given(args.cr) || configured != ""
  {
    if Given(args.cr) then args.cr.value else configured
  }

  /** The controls file is chosen independently of the input mode. */
  lemma ControlsPathIgnoresMode(args: Args, interactive: bool, feed: Option<string>, tr: Option<string>, configured: string)
    ensures ControlsPath(args.(interactive := interactive, feed := feed, tr := tr), configured)
      == ControlsPath(args, configured)
  {
  }

  /** The values `main` reads from `config.ini`. */
  datatype Config = Config(outputPrefix: string, controlsReport: string)

  /** What `main` does before the coverage analysis. */
  datatype Outcome =
    | Usage                                                          // prints usage and returns
    | InputEnded                                                     // `input()` raised EOFError
    | Analyze(threatReport: Option<string>, controlsReport: string)  // calls `load_data` with these
    | NoData                                                         // halts: nothing was extracted

  /** The URLs of a URL mode, or `None` when interactive entry hits end of input. */
  function ModeUrls(mode: Mode, stdin: seq<string>, feedLines: seq<string>): (r: Option<seq<string>>)
    requires mode.Interactive? || mode.FeedFile?
    ensures r.None? ==> mode.Interactive? && forall i :: 0 <= i < |stdin| ==> !IsSentinel(stdin[i])
    ensures r.Some? && mode.Interactive? ==> |r.value| < |stdin| && r.value == stdin[..|r.value|]
    ensures mode.FeedFile? ==> r.Some? && forall u :: u in r.value ==> u != []
  {
    if mode.Interactive? then InputUrls(stdin) else Some(UrlsFromFile(feedLines))
  }

  /**
   * `main` up to the call of `load_data`, as written: in a URL mode the
   * result of `generate_threat_report` is handed on even when it is `None`.
   */
  function Plan(args: Args, config: Config, stdin: seq<string>, feedLines: seq<string>,
                ask: string -> Reply, today: Date): (o: Outcome)
    requires ValidDate(today)
    ensures o != NoData
    ensures o == Usage <==> SelectMode(args).ShowUsage?
    ensures o == InputEnded <==> args.interactive && InputUrls(stdin).None?
    ensures o.Analyze? ==> o.controlsReport == ControlsPath(args, config.controlsReport)
    ensures SelectMode(args).ExistingReport? ==> o.Analyze? && o.threatReport == Some(SelectMode(args).path)
  {
    var controls := ControlsPath(args, config.controlsReport);
    var mode := SelectMode(args);
    match mode
    case ShowUsage => Usage
    case ExistingReport(path) => Analyze(Some(path), controls)
    case _ =>
      match ModeUrls(mode, stdin, feedLines)
      case None => InputEnded
      case Some(urls) => Analyze(ThreatReportName(Extract(urls, ask), config.outputPrefix, today), controls)
  }

  /**
   * As written, `main` reaches `load_data` without a threat report exactly
   * when a URL mode extracted no record.
   */
  lemma PlanMissingReport(args: Args, config: Config, stdin: seq<string>, feedLines: seq<string>,
                          ask: string -> Reply, today: Date)
    requires ValidDate(today)
    ensures (Plan(args, config, stdin, feedLines, ask, today).Analyze?
             && Plan(args, config, stdin, feedLines, ask, today).threatReport.None?)
      <==> var mode := SelectMode(args);
           (mode.Interactive? || mode.FeedFile?)
           && ModeUrls(mode, stdin, feedLines).Some?
           && Extract(ModeUrls(mode, stdin, feedLines).value, ask) == []
  {
  }

  /**
   * A feed file with one URL whose call raises: `main` goes on to
   * `load_data(None, …)` instead of stopping.
   */
  lemma PlanMissingReportExample(ask: string -> Reply)
    requires forall url :: ask(url) == Raised
    ensures Plan(Args(false, Some("urls.txt"), None, None), Config("RiskMapper", "controls.xlsx"),
                 [], ["https://example.com/report.pdf\n"], ask, Date(2024, 5, 1))
      == Analyze(None, "controls.xlsx")
  {
    var lines := ["https://example.com/report.pdf\n"];
    var urls := UrlsFromFile(lines);
    assert |urls| <= 1;
    if urls != [] {
      FailedUrlAddsNothing([], urls[0], [], ask);
      assert urls == [] + [urls[0]] + [];
    }
    assert Extract(urls, ask) == [];
  }

  /**
   * `main` with a check of `generate_threat_report`'s `None` result, which
   * comes with the message `No data to generate Threat Report.`: when a URL
   * mode extracts nothing, it halts before analysis. Otherwise it does what
   * `main` does.
   */
  function GuardedPlan(args: Args, config: Config, stdin: seq<string>, feedLines: seq<string>,
                       ask: string -> Reply, today: Date): (o: Outcome)
    requires ValidDate(today)
    ensures o.Analyze? ==> o.threatReport.Some?
  {
    match Plan(args, config, stdin, feedLines, ask, today)
    case Analyze(None, _) => NoData
    case other => other
  }

  /**
   * The guarded pipeline halts with no data exactly where the written one
   * reaches the analysis without a report, and agrees with it everywhere else.
   */
  lemma GuardedPlanHalts(args: Args, config: Config, stdin: seq<string>, feedLines: seq<string>,
                         ask: string -> Reply, today: Date)
    requires ValidDate(today)
    ensures var mode := SelectMode(args);
      GuardedPlan(args, config, stdin, feedLines, ask, today) == NoData
      <==> (mode.Interactive? || mode.FeedFile?)
           && ModeUrls(mode, stdin, feedLines).Some?
           && Extract(ModeUrls(mode, stdin, feedLines).value, ask) == []
    ensures GuardedPlan(args, config, stdin, feedLines, ask, today) != NoData ==>
      GuardedPlan(args, config, stdin, feedLines, ask, today) == Plan(args, config, stdin, feedLines, ask, today)
  {
    PlanMissingReport(args, config, stdin, feedLines, ask, today);
  }

  /**
   * With none of `--interactive`, a non-empty `--feed` or a non-empty `--tr`,
   * `main` only prints usage. A corollary of `Plan`'s contract and
   * `SelectMode`'s, stated once for the whole program.
   */
  lemma PlanUsage(args: Args, config: Config, stdin: seq<string>, feedLines: seq<string>,
                  ask: string -> Reply, today: Date)
    requires ValidDate(today)
    ensures Plan(args, config, stdin, feedLines, ask, today) == Usage
      <==> !args.interactive && !Given(args.feed) && !Given(args.tr)
  {
  }
}
