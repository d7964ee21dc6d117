/**
 * `ScrapingWorker.run`: one scraping cycle. Login and report selection
 * failures end the cycle with an error signal; otherwise the results are
 * assembled into one finished signal. The browser obtained is quit on every
 * path.
 */
module Worker {
  import opened Wrappers
  import opened Browser
  import Logging
  import opened Report
  import opened SpamTable
  import opened Message
  import opened Dsat

  /** The five values the finished signal carries. */
  datatype CycleResult = CycleResult(
    linkTxt: string,
    spamPercentage: string,
    progressTextValue: string,
    spamDocCount: nat,
    agitTxt: string
  )

  /** The worker's outcome signals. */
  datatype Signal = Finished(result: CycleResult) | Error(message: string)

  const StartMessage: string := "★ 스팸률 수집 작업을 시작합니다. ★"
  const LoginFailure: string := "비밀번호 오류 또는 로그인 실패"
  const ReportFailure: string := "'대기중' 상태인 평가 리포트 클릭 실패"
  const ErrorPrefix: string := "작업 중 오류 발생: "
  const CloseMessage: string := "★ 크롬 브라우저 종료 완료 ★"

  /** Decimal digits of `n`, as an f-string renders an int. */
  function NatText(n: nat): string
    decreases n
  {
    var digit := "0123456789"[n % 10];
    if n < 10 then [digit] else NatText(n / 10) + [digit]
  }

  /** The result once a report was opened: the message and the record count
      are filled in only when at least one spam record was extracted. */
  function Assemble(linkTxt: string, linkHref: string, progress: string, spamPercentage: string,
                    doc: Option<seq<Record>>): CycleResult
  {
    if doc.Some? && |doc.value| > 0 then
      CycleResult(linkTxt, spamPercentage, progress, |doc.value|,
                  AgitText(linkTxt, spamPercentage, progress, RenderTable(doc.value), linkHref))
    else
      CycleResult(linkTxt, spamPercentage, progress, 0, "")
  }

  /** The signal one cycle emits against a site. */
  function Cycle(w: Site): Signal {
    if !LoginSucceeds(w) then Error(LoginFailure)
    else
      var (linkTxt, linkHref) := ReportLink(w);
      if linkTxt.None? || linkHref.None? then Error(ReportFailure)
      else Finished(Assemble(linkTxt.value, linkHref.value, ProgressText(w), SpamRate(w), SpamDoc(w)))
  }

  /** A cycle finishes exactly when login succeeds and a pending report's
      label and link are obtained; it then reports that first pending card's
      label. A failed login or report selection gives the matching error. */
  lemma CycleGating(w: Site)
    ensures Cycle(w).Finished? <==> LoginSucceeds(w) && ReportLink(w).0.Some? && ReportLink(w).1.Some?
    ensures !LoginSucceeds(w) ==> Cycle(w) == Error(LoginFailure)
    ensures LoginSucceeds(w) && (ReportLink(w).0.None? || ReportLink(w).1.None?) ==> Cycle(w) == Error(ReportFailure)
    ensures Cycle(w).Finished? ==>
      w.reportCards.Some? && FirstPending(w.reportCards.value).Some?
      && var cards, i := w.reportCards.value, FirstPending(w.reportCards.value).value;
         i < |cards| && IsPending(cards[i]) && (forall j :: 0 <= j < i ==> !IsPending(cards[j]))
         && cards[i].titleLink.Some? && Cycle(w).result.linkTxt == cards[i].titleLink.value.text
  {
    ReportLinkIsFirstPending(w);
  }

  /** The message is non-empty exactly when the spam table was extracted with
      at least one row; then the count is the number of body rows, otherwise
      the message is empty and the count is 0. */
  lemma ShareTextIffSpam(w: Site)
    requires Cycle(w).Finished?
    ensures Cycle(w).result.agitTxt != "" <==> SpamDoc(w).Some? && |SpamDoc(w).value| > 0
    ensures Cycle(w).result.agitTxt == "" ==> Cycle(w).result.spamDocCount == 0
    ensures Cycle(w).result.agitTxt != "" ==>
      w.spamTable.Some? && Cycle(w).result.spamDocCount == |w.spamTable.value.rows|
  {
    SpamDocShape(w);
    var (linkTxt, linkHref) := ReportLink(w);
    var doc := SpamDoc(w);
    if doc.Some? && |doc.value| > 0 {
      MessageOrder(linkTxt.value, SpamRate(w), ProgressText(w), RenderTable(doc.value), linkHref.value);
    }
  }

  /** A non-empty message embeds, in order, the report label, spam rate,
      progress, table and report link, and the table shows every spam
      record's row in table order. */
  lemma SummaryOrder(w: Site)
    requires Cycle(w).Finished? && Cycle(w).result.agitTxt != ""
    ensures SpamDoc(w).Some?
    ensures var r, rs := Cycle(w).result, SpamDoc(w).value;
      AppearInOrder(r.agitTxt, [r.linkTxt, r.spamPercentage, r.progressTextValue, RenderTable(rs), ReportLink(w).1.value])
      && AppearInOrder(RenderTable(rs), RowTexts(rs))
  {
    var (linkTxt, linkHref) := ReportLink(w);
    var rs := SpamDoc(w).value;
    MessageOrder(linkTxt.value, SpamRate(w), ProgressText(w), RenderTable(rs), linkHref.value);
    TableRowsInOrder(rs);
  }

  /** The part of a cycle after a successful login: the reads, the report
      selection and the assembly of the result, or the report-selection
      error. The browser is not quit here. */
  method Scrape(util: DSATUtil) returns (outcome: Signal)
    requires util.driver != null && util.driver.site == util.world && LoginSucceeds(util.world)
    modifies util.log, util.driver
    ensures outcome == Cycle(util.world)
    ensures util.driver == old(util.driver) && util.driver.quits == old(util.driver.quits)
    ensures util.log.guiAttached == old(util.log.guiAttached)
  {
    var l := util.log;
    var progress := util.GetProgressInfo();
    var _, _, _ := util.GetQueryCountInfo();
    var _, _ := util.GetResultInfo();
    var linkTxt, linkHref := util.ClickReport();
    if linkTxt.None? || linkHref.None? {
      l.Write(Logging.Error, ErrorPrefix + ReportFailure);
      return Error(ReportFailure);
    }
    var spamPercentage := util.GetSpamPercentage();
    var doc := util.GetSpamDoc();
    var agitTxt, count := "", 0;
    if doc.Some? && |doc.value| > 0 {
      count := |doc.value|;
      l.Write(Logging.Info, "✅ 스팸 문서 " + NatText(count) + "건 수집 완료.");
      agitTxt := AgitText(linkTxt.value, spamPercentage, progress, RenderTable(doc.value), linkHref.value);
    } else {
      l.Write(Logging.Info, "수집된 스팸 문서가 없습니다.");
    }
    outcome := Finished(CycleResult(linkTxt.value, spamPercentage, progress, count, agitTxt));
  }

  class ScrapingWorker {
    const username: string
    const password: string
    const headlessMode: bool
    var driver: Driver?
    var log: Logging.Log?
    /** The `finished` and `error` signals emitted so far. */
    ghost var emitted: seq<Signal>

    constructor (username: string, password: string, headlessMode: bool)
      ensures this.username == username && this.password == password && this.headlessMode == headlessMode
      ensures driver == null && log == null && emitted == []
    {
      this.username := username;
      this.password := password;
      this.headlessMode := headlessMode;
      driver := null;
      log := null;
      emitted := [];
    }

    /** One cycle against `world`. Emits exactly one signal; `launched` is the
        browser started during the cycle, which ends up quit exactly once. */
    method Run(world: Site) returns (ghost launched: Driver?)
      modifies this
      ensures emitted == old(emitted) + [Cycle(world)]
      ensures log != null && fresh(log)
      ensures launched == null <==> !world.launches
      ensures launched != null ==> fresh(launched) && launched.quits == 1
      ensures driver != null <==> LoginSucceeds(world)
      ensures driver != null ==> driver == launched
      ensures driver != null ==>
        !log.guiAttached && |log.lines| > 0
        && log.lines[|log.lines| - 1] == Logging.Line(Logging.Info, CloseMessage, false)
      ensures driver == null ==> log.guiAttached
    {
      var l := new Logging.Log(true);
      log := l;
      l.Write(Logging.Info, StartMessage);
      var util := new DSATUtil(l, headlessMode, world);
      var ok;
      ok, launched := util.Login(username, password);
      var outcome: Signal;
      if ok {
        driver := util.driver;
        outcome := Scrape(util);
      } else {
        driver := null;
        outcome := Error(LoginFailure);
        l.Write(Logging.Error, ErrorPrefix + LoginFailure);
      }
      emitted := emitted + [outcome];
      if driver != null {
        l.DetachGui();
        driver.Quit();
        l.Write(Logging.Info, CloseMessage);
      }
    }
  }
}
