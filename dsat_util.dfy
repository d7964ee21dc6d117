/**
 * `DSATUtil`: one browser session driven through login, the dashboard reads,
 * report selection and the spam-table extraction. Every read tolerates
 * failure by returning a sentinel; the session is closed on login failure.
 */
module Dsat {
  import opened Wrappers
  import opened Text
  import opened Browser
  import opened Logging
  import opened Statistics
  import opened Report
  import opened SpamTable

  /** Sentinel for a metric that could not be read. */
  const NoData: string := "(정보 없음)"

  /** Login succeeds when the browser starts and the username field, the
      password field and the authenticated application shell all appear. */
  predicate LoginSucceeds(site: Site) {
    site.launches && site.usernameField && site.passwordField && site.shellRendered
  }

  /** The progress text `get_progress_info` returns for a site. */
  function ProgressText(site: Site): string {
    match site.progress
    case None => NoData
    case Some(text) => Strip(text)
  }

  /** The spam rate `get_spam_percentage` returns for a site (not stripped). */
  function SpamRate(site: Site): string {
    match site.spamRate
    case None => NoData
    case Some(text) => text
  }

  /** The records `get_spam_doc` returns for a site. */
  function SpamDoc(site: Site): Option<seq<Record>> {
    if !site.spamSection || !PageSize(site.pageSizeTries).ok then None
    else match site.spamTable
      case None => None
      case Some(table) => Records(Headers(table.headerCells), table.rows)
  }

  /** A spam document list exists only when the section showed up, the page
      size was set and the table was there; it then has one record per body
      row, in row order, each holding only the kept columns. */
  lemma SpamDocShape(site: Site)
    ensures SpamDoc(site).Some? ==>
      site.spamSection && PageSize(site.pageSizeTries).ok && site.spamTable.Some?
      && |SpamDoc(site).value| == |site.spamTable.value.rows|
      && forall j :: 0 <= j < |site.spamTable.value.rows| ==>
           Some(SpamDoc(site).value[j]) == RowRecord(Headers(site.spamTable.value.headerCells), site.spamTable.value.rows[j])
           && SpamDoc(site).value[j].Keys <= set k | k in DesiredHeaders
  {
    if SpamDoc(site).Some? {
      var table := site.spamTable.value;
      var headers := Headers(table.headerCells);
      RecordsShape(headers, table.rows);
      forall j | 0 <= j < |table.rows|
        ensures SpamDoc(site).value[j].Keys <= set k | k in DesiredHeaders
      {
        RowRecordMeaning(headers, table.rows[j]);
      }
    }
  }

  class DSATUtil {
    const log: Log
    const headless: bool
    /** What any browser this object launches will be shown. */
    const world: Site
    var driver: Driver?

    constructor (log: Log, headless: bool, world: Site)
      ensures this.log == log && this.headless == headless && this.world == world
      ensures driver == null
    {
      this.log := log;
      this.headless := headless;
      this.world := world;
      driver := null;
    }

    /** Starts a browser and signs in. Any failure closes the session and
        reports false; `launched` is the browser started by this call. */
    method Login(username: string, password: string) returns (ok: bool, ghost launched: Driver?)
      modifies this, log, driver
      ensures log.guiAttached == old(log.guiAttached) && old(log.lines) <= log.lines
      ensures ok <==> LoginSucceeds(world)
      ensures launched == null <==> !world.launches
      ensures launched != null ==>
        fresh(launched) && launched.site == world && launched.headless == headless
        && launched.quits == (if ok then 0 else 1) && launched.refreshes == 0 && launched.clicks == 0
      ensures ok ==> driver == launched
      ensures !ok ==> driver == null
      ensures old(driver) != null ==>
        old(driver).quits == old(driver.quits) + (if world.launches then 0 else 1)
    {
      log.Write(Info, "웹 드라이버 설정을 시작합니다.");
      if headless {
        log.Write(Info, "헤드리스 모드로 실행합니다.");
      }
      if !world.launches {
        FailLogin();
        return false, null;
      }
      var d := new Driver(world, headless);
      driver, launched := d, d;
      log.Write(Info, "웹 드라이버가 성공적으로 생성되었습니다.");
      ok := SignIn();
      if !ok {
        FailLogin();
      }
    }

    /** The failure exit of `login`: log the error and close the session. */
    method FailLogin()
      modifies this, log, driver
      ensures log.guiAttached == old(log.guiAttached) && old(log.lines) <= log.lines
      ensures driver == null
      ensures old(driver) != null ==>
        old(driver).quits == old(driver.quits) + 1
        && old(driver).refreshes == old(driver.refreshes) && old(driver).clicks == old(driver.clicks)
    {
      log.Write(Error, "❌ DSAT 로그인 실패");
      Close();
    }

    /** Fills in the credentials and waits for the application shell. */
    method SignIn() returns (ok: bool)
      modifies log
      ensures log.guiAttached == old(log.guiAttached) && old(log.lines) <= log.lines
      ensures ok <==> world.usernameField && world.passwordField && world.shellRendered
    {
      ok := false;
      if world.usernameField && world.passwordField {
        log.Write(Info, "아이디와 비밀번호를 입력했습니다.");
        if world.shellRendered {
          log.Write(Info, "✅ DSAT 로그인에 성공했습니다.");
          ok := true;
        }
      }
    }

    /** Quits the browser if there is one and forgets it; with no browser it
        does nothing, so a second call is harmless. */
    method Close()
      modifies this, driver
      ensures driver == null
      ensures old(driver) != null ==>
        old(driver).quits == old(driver.quits) + 1
        && old(driver).refreshes == old(driver.refreshes) && old(driver).clicks == old(driver.clicks)
    {
      if driver != null {
        driver.Quit();
        driver := null;
      }
    }

    /** The evaluation progress text, or the sentinel when it cannot be read. */
    method GetProgressInfo() returns (progressText: string)
      modifies log
      ensures log.guiAttached == old(log.guiAttached) && old(log.lines) <= log.lines
      ensures driver == null ==> progressText == NoData
      ensures driver != null ==> progressText == ProgressText(driver.site)
      ensures driver != null && driver.site.progress.None? ==> progressText == NoData
    {
      if driver == null || driver.site.progress.None? {
        log.Write(Error, "❌ 평가 진행률 정보 수집 중 오류");
        return NoData;
      }
      progressText := Strip(driver.site.progress.value);
      log.Write(Info, "✅ '평가 진행율' 값 가져오기 성공.");
    }

    /** Pending, in-progress and completed counts; all None when the blocks
        do not appear or a block cannot be read. */
    method GetQueryCountInfo() returns (pending: Option<string>, inProgress: Option<string>, completed: Option<string>)
      modifies log
      ensures log.guiAttached == old(log.guiAttached) && old(log.lines) <= log.lines
      ensures driver == null ==> pending == inProgress == completed == None
      ensures driver != null ==> [pending, inProgress, completed] == StatisticRead(driver.site.statistics, QueueLabels)
    {
      if driver == null || driver.site.statistics.None? {
        log.Write(Error, "❌ 평가 현황 정보 수집 중 오류");
        return None, None, None;
      }
      var values := ScanStatistics(driver.site.statistics.value, QueueLabels);
      pending, inProgress, completed := values[0], values[1], values[2];
      if Aborts(driver.site.statistics.value) {
        log.Write(Error, "❌ 평가 현황 정보 수집 중 오류");
      } else {
        log.Write(Info, "✅ 평가 현황 정보 수집 완료.");
      }
    }

    /** Ham and spam counts, by the same scan over the same blocks. */
    method GetResultInfo() returns (ham: Option<string>, spam: Option<string>)
      modifies log
      ensures log.guiAttached == old(log.guiAttached) && old(log.lines) <= log.lines
      ensures driver == null ==> ham == spam == None
      ensures driver != null ==> [ham, spam] == StatisticRead(driver.site.statistics, ResultLabels)
    {
      if driver == null || driver.site.statistics.None? {
        log.Write(Error, "❌ 햄/스팸 정보 수집 중 오류");
        return None, None;
      }
      var values := ScanStatistics(driver.site.statistics.value, ResultLabels);
      ham, spam := values[0], values[1];
      if Aborts(driver.site.statistics.value) {
        log.Write(Error, "❌ 햄/스팸 정보 수집 중 오류");
      } else {
        log.Write(Info, "✅ 햄/스팸 문서 개수 정보 수집 완료.");
      }
    }

    /** Opens the first pending report and returns its label and link target;
        (None, None) when there is none or opening it fails. */
    method ClickReport() returns (linkTxt: Option<string>, linkHref: Option<string>)
      modifies log, driver
      ensures log.guiAttached == old(log.guiAttached) && old(log.lines) <= log.lines
      ensures driver == old(driver)
      ensures driver != null ==> driver.quits == old(driver.quits) && driver.refreshes == old(driver.refreshes)
      ensures driver == null ==> linkTxt == None && linkHref == None
      ensures driver != null ==> (linkTxt, linkHref) == ReportLink(driver.site)
      ensures driver != null ==> driver.clicks <= old(driver.clicks) + 1
      ensures driver != null && linkTxt.Some? ==> driver.clicks == old(driver.clicks) + 1
    {
      if driver == null || driver.site.reportCards.None? {
        log.Write(Error, "❌ '대기중' 리포트 처리 중 오류");
        return None, None;
      }
      var d := driver;
      var cards := d.site.reportCards.value;
      var target := FindPendingCard(cards);
      FirstPendingIsFirst(cards);
      if target.None? || cards[target.value].titleLink.None? {
        log.Write(Error, "❌ '대기중' 리포트 처리 중 오류");
        return None, None;
      }
      var link := cards[target.value].titleLink.value;
      if !d.site.linkClickable {
        log.Write(Error, "❌ '대기중' 리포트 처리 중 오류");
        return None, None;
      }
      d.Click();
      if !d.site.detailShown {
        log.Write(Error, "❌ '대기중' 리포트 처리 중 오류");
        return None, None;
      }
      log.Write(Info, "✅ 리포트 상세 페이지 로드 완료.");
      linkTxt, linkHref := Some(link.text), link.href;
    }

    /** The spam rate text, or the sentinel (logged as a warning). */
    method GetSpamPercentage() returns (rate: string)
      modifies log
      ensures log.guiAttached == old(log.guiAttached) && old(log.lines) <= log.lines
      ensures driver == null ==> rate == NoData
      ensures driver != null ==> rate == SpamRate(driver.site)
    {
      if driver == null || driver.site.spamRate.None? {
        log.Write(Warning, "⚠️ 스팸률 정보 수집 실패");
        return NoData;
      }
      rate := driver.site.spamRate.value;
    }

    /** The page-size retry: up to three attempts, a refresh and a wait for the
        section after a failed first or second attempt, giving up after the
        third failure or when the section does not come back. */
    method SetPageSize100() returns (ok: bool)
      requires driver != null
      modifies log, driver
      ensures log.guiAttached == old(log.guiAttached) && old(log.lines) <= log.lines
      ensures driver == old(driver) && driver.quits == old(driver.quits)
      ensures var run := PageSize(driver.site.pageSizeTries);
        ok == run.ok
        && driver.refreshes == old(driver.refreshes) + run.refreshes
        && driver.clicks == old(driver.clicks) + run.clicks
    {
      var d := driver;
      var tries := d.site.pageSizeTries;
      ghost var run := PageSize(tries);
      ghost var refreshes0, clicks0, quits0 := d.refreshes, d.clicks, d.quits;
      ghost var lines0, attached0 := log.lines, log.guiAttached;
      ghost var refreshes: nat, clicks: nat := 0, 0;
      ok := false;
      var done := false;
      var attempt := 0;
      while !done
        invariant d == driver && d.quits == quits0
        invariant log.guiAttached == attached0 && lines0 <= log.lines
        invariant d.refreshes == refreshes0 + refreshes && d.clicks == clicks0 + clicks
        invariant !done ==> !ok && attempt < MaxAttempts && run == PageSizeFrom(tries, attempt, refreshes, clicks)
        invariant done ==> run.ok == ok && run.refreshes == refreshes && run.clicks == clicks
        decreases MaxAttempts - attempt, if done then 0 else 1
      {
        var t := TryAt(tries, attempt);
        var again;
        ok, again := RetryStep(t, attempt == MaxAttempts - 1);
        PageSizeFromStep(tries, attempt, refreshes, clicks, ok);
        clicks := clicks + ClicksOf(t);
        if !ok && attempt < MaxAttempts - 1 {
          refreshes := refreshes + 1;
        }
        if again {
          attempt := attempt + 1;
        } else {
          done := true;
        }
      }
    }

    /** One pass of the retry loop: an attempt and, when it failed and was not
        the last, a refresh and a wait for the section. */
    method RetryStep(t: PageSizeTry, last: bool) returns (ok: bool, again: bool)
      requires driver != null
      modifies log, driver
      ensures log.guiAttached == old(log.guiAttached) && old(log.lines) <= log.lines
      ensures driver == old(driver) && driver.quits == old(driver.quits)
      ensures ok == TrySucceeds(t)
      ensures driver.clicks == old(driver.clicks) + ClicksOf(t)
      ensures driver.refreshes == old(driver.refreshes) + (if !ok && !last then 1 else 0)
      ensures again <==> !ok && !last && t.sectionReappears
    {
      ok := TryPageSize(t);
      again := false;
      if !ok && !last {
        driver.Refresh();
        again := t.sectionReappears;
      }
    }

    /** One attempt: read the page-size control and, unless it already reads
        "100", open it and pick the "100" option. */
    method TryPageSize(t: PageSizeTry) returns (ok: bool)
      requires driver != null
      modifies log, driver
      ensures log.guiAttached == old(log.guiAttached) && old(log.lines) <= log.lines
      ensures driver == old(driver) && driver.quits == old(driver.quits) && driver.refreshes == old(driver.refreshes)
      ensures ok == TrySucceeds(t)
      ensures driver.clicks == old(driver.clicks) + ClicksOf(t)
    {
      ok := false;
      if t.dropdown.Some? {
        if !Contains(t.dropdown.value, HundredRows) {
          driver.Click();
          if t.optionClicked {
            driver.Click();
            log.Write(Info, "✅ 페이지당 100개 보기로 변경했습니다.");
            ok := true;
          }
        } else {
          log.Write(Info, "페이지당 100개 보기가 이미 설정되어 있습니다.");
          ok := true;
        }
      }
    }

    /** The spam document records, or None when the section, the page size
        or the table cannot be read. */
    method GetSpamDoc() returns (doc: Option<seq<Record>>)
      modifies log, driver
      ensures log.guiAttached == old(log.guiAttached) && old(log.lines) <= log.lines
      ensures driver == old(driver)
      ensures driver == null ==> doc == None
      ensures driver != null ==> doc == SpamDoc(driver.site) && driver.quits == old(driver.quits)
      ensures driver != null ==>
        driver.refreshes == old(driver.refreshes)
          + (if driver.site.spamSection then PageSize(driver.site.pageSizeTries).refreshes else 0)
      ensures driver != null ==>
        driver.clicks == old(driver.clicks)
          + (if driver.site.spamSection then PageSize(driver.site.pageSizeTries).clicks else 0)
    {
      log.Write(Info, "스팸 문서 크롤링 시작");
      if driver == null || !driver.site.spamSection {
        log.Write(Error, "❌ 스팸 문서 수집 중 오류");
        return None;
      }
      log.Write(Info, "'스팸문서 예시' 섹션을 찾았습니다.");
      var paged := SetPageSize100();
      if !paged || driver.site.spamTable.None? {
        log.Write(Error, "❌ 스팸 문서 수집 중 오류");
        return None;
      }
      var table := driver.site.spamTable.value;
      var headers := HeaderLabels(table.headerCells);
      if UrlHeader !in headers {
        headers := headers + [UrlHeader];
      }
      doc := ExtractRows(headers, table.rows);
      if doc.None? {
        log.Write(Error, "❌ 스팸 문서 수집 중 오류");
      } else {
        log.Write(Info, "✅ 스팸 문서를 성공적으로 수집했습니다.");
      }
    }
  }
}
