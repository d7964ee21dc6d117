# DSAT spam-rate scraping workflow

This project models the core of a desktop tool. The tool signs in to the DSAT
evaluation web application with a browser and reads the current evaluation
progress, the queue and ham/spam counts, and the first report card marked
"대기중" (pending). It then opens that report and reads the spam rate and the
spam-document table. From these it assembles a summary message that the
window may share to an Agit group.

The browser is not modelled as a program. A `Browser.Site` value says, for
every wait and click the scraper performs, whether it succeeds and what text
it yields. A `Browser.Driver` object carries that site and counts how often it
was quit, refreshed and clicked. Each operation is stated against a pure
specification function of the site:

- `Dsat.LoginSucceeds`, `Dsat.ProgressText`, `Dsat.SpamRate`, `Dsat.SpamDoc`;
- `Statistics.StatisticRead`, `Report.ReportLink`, `SpamTable.PageSize`,
  `SpamTable.Records`;
- `Worker.Cycle`.

The properties the tool relies on are proved about those functions.

Modules:

- `Text`: Python's `str.strip` and the `in` substring test.
- `Browser`: the site oracle and the driver.
- `Logging`: the append-only log. Each line records whether the GUI was still attached.
- `Statistics`: the statistic-block scan shared by the queue and ham/spam reads.
- `Report`: the choice of the pending report card.
- `SpamTable`: the page-size retry, the header list and the row-to-record extraction.
- `Dsat`: the `DSATUtil` class.
- `Message`: the plain table rendering and the message template.
- `Worker`: `ScrapingWorker.run`.
- `Window`: the share gating of `MainWindow`.

`main.py` imports function-style names (`dsat_login`, `progress_info`, …)
that `Service/dsat_util.py` does not define; that module only offers the
`DSATUtil` class. The worker here therefore drives one `DSATUtil` object. The
"driver" the worker keeps is the browser that object launched once login
succeeded.

## Model

| member | source | states |
|---|---|---|
| Text.TrimLeftShape | Service/dsat_util.py:91 | stripping the left end removes exactly a whitespace prefix and stops at a non-whitespace character |
| Text.TrimRightShape | Service/dsat_util.py:111 | stripping the right end removes exactly a whitespace suffix and stops at a non-whitespace character |
| Text.StripShape | Service/dsat_util.py:113 | `strip()` yields a substring of the input with no whitespace at either end; it is empty iff the input is all whitespace |
| Text.ContainsAt | Service/dsat_util.py:169 | the substring test `sub in s` holds iff `sub` occurs at some index of `s` |
| Browser.Driver.constructor | Service/dsat_util.py:50 | a freshly launched browser shows the given site and has not been quit, refreshed or clicked |
| Browser.Driver.Quit | Service/dsat_util.py:79 | quitting counts one quit and changes nothing else |
| Browser.Driver.Refresh | Service/dsat_util.py:234 | refreshing counts one refresh and changes nothing else |
| Browser.Driver.Click | Service/dsat_util.py:178 | a click counts one click and changes nothing else |
| Logging.Log.constructor | Common/log.py:15-46 | a new log is empty and is attached to the GUI exactly when a GUI callback is given |
| Logging.Log.Write | Common/log.py:52-84 | writing appends exactly one line with the level, the text and whether the GUI still receives it |
| Logging.Log.DetachGui | main.py:120 | clearing the GUI callback stops GUI delivery and keeps the lines |
| Statistics.ClassifyCases | Service/dsat_util.py:109-121 | a block is skipped iff its title or value element is missing, ends the read iff reading either fails otherwise, and otherwise yields its stripped title and value |
| Statistics.ScanStatistics | Service/dsat_util.py:104-121 | the loop over the blocks yields, for each wanted title, the stripped value of the last block with that title |
| Statistics.ScanStep | Service/dsat_util.py:108-121 | one more block updates only the title it carries, and a failing block makes the whole read fail |
| Statistics.LastValueIsLastHit | Service/dsat_util.py:114-119 | a title's value is None iff no block carries it, and otherwise comes from the last block that does |
| Statistics.NoMatchMeansNone | Service/dsat_util.py:104-106 | a wanted title no block carries stays None |
| Statistics.InertBlockKeepsValues | Service/dsat_util.py:114-119 | a readable block whose title is not wanted changes no value |
| Statistics.SkippedBlockKeepsValues | Service/dsat_util.py:120-121 | a block missing its title or value element is skipped |
| Statistics.UnknownTitleKeepsValues | Service/dsat_util.py:114-119 | a block whose stripped title is none of the wanted ones changes no value |
| Statistics.LaterBlockOverwrites | Service/dsat_util.py:114-119 | a later block with a wanted title overwrites that title's value with its stripped value |
| Statistics.FailingBlockClearsAll | Service/dsat_util.py:125-127 | any other failure on one block makes every value None |
| Report.FirstPendingIsFirst | Service/dsat_util.py:166-173 | the chosen card is the first whose text contains "대기중"; there is none iff no card contains it |
| Report.FindPendingCard | Service/dsat_util.py:167-171 | the loop with `break` finds exactly that first pending card |
| Report.ReportLinkIsFirstPending | Service/dsat_util.py:166-183 | a returned label is the link text of the first pending card, which has a link that was clicked and whose detail page appeared; no label means no link |
| Report.NoPendingCardNoLink | Service/dsat_util.py:172-173 | with no pending card the result is (None, None) |
| SpamTable.PageSizeFromShape | Service/dsat_util.py:213-239 | after `a` failed attempts, each followed by a refresh, the remaining run counts `a` more attempts and refreshes |
| SpamTable.PageSizeCharacterization | Service/dsat_util.py:212-242 | the retry makes 1 to 3 attempts and at most 2 refreshes; it succeeds iff some attempt succeeds after every earlier one failed and was followed by a refresh the section survived |
| SpamTable.ThirdFailureGivesUp | Service/dsat_util.py:233-239 | three failed attempts end the retry with failure after exactly two refreshes |
| SpamTable.AlreadyHundredNoClick | Service/dsat_util.py:219-230 | when the control already reads "100" the first attempt succeeds with no click and no refresh |
| SpamTable.HeaderLabels | Service/dsat_util.py:246 | every label is the non-empty stripped text of some header cell, and every header cell whose stripped text is non-empty gives a label |
| SpamTable.LabelPositions | Service/dsat_util.py:246 | the positions of the header cells with non-empty stripped text: strictly increasing and complete |
| SpamTable.HeaderLabelsInOrder | Service/dsat_util.py:246 | the i-th label is the stripped text of the i-th such position, so labels keep header order and multiplicity |
| SpamTable.Headers | Service/dsat_util.py:247-249 | "Url" is always a header, and it is appended exactly when it was missing |
| SpamTable.RowRecordMeaning | Service/dsat_util.py:254-263 | a row's record keeps only the wanted columns; a key is present iff some cell falls under it, and holds the last such cell's text (its link target for "Url") |
| SpamTable.TooManyCellsAborts | Service/dsat_util.py:256-257 | a row with more cells than headers makes the whole extraction fail |
| SpamTable.RecordsShape | Service/dsat_util.py:251-263 | extraction yields one record per row in row order, and fails iff some row fails |
| SpamTable.MissingAnchorAborts | Service/dsat_util.py:259-260 | a "Url" cell with no anchor makes the whole extraction fail |
| SpamTable.AnchorWithoutHrefKeepsRow | Service/dsat_util.py:259-260 | an anchor without `href` keeps its row, whose record holds None under "Url" |
| SpamTable.RowRecordNoneExtends | Service/dsat_util.py:256-260 | once a row's cells fail, more cells cannot repair it |
| SpamTable.RecordsNoneWhenRowNone | Service/dsat_util.py:252-263 | one failing row fails the whole extraction |
| SpamTable.ExtractRows | Service/dsat_util.py:251-263 | the nested loops build exactly the records the specification defines |
| Dsat.SpamDocShape | Service/dsat_util.py:202-268 | a document list exists only if the section appeared, the page size was set and the table was there; it has one record per body row, with the wanted columns only |
| Dsat.DSATUtil.constructor | Service/dsat_util.py:30-33 | a new helper has no browser |
| Dsat.DSATUtil.Login | Service/dsat_util.py:37-73 | login reports success iff the browser launches and the fields and the application shell appear; on failure the launched browser is quit once and forgotten |
| Dsat.DSATUtil.SignIn | Service/dsat_util.py:56-68 | sign-in succeeds iff the username field, the password field and the application shell all appear |
| Dsat.DSATUtil.FailLogin | Service/dsat_util.py:70-73 | the failure exit logs and closes: the browser, if any, is quit once and forgotten |
| Dsat.DSATUtil.Close | Service/dsat_util.py:77-80 | closing quits the browser once if there is one and forgets it |
| Dsat.DSATUtil.GetProgressInfo | Service/dsat_util.py:84-96 | the stripped progress text, or "(정보 없음)" when it cannot be read |
| Dsat.DSATUtil.GetQueryCountInfo | Service/dsat_util.py:99-127 | the pending, in-progress and completed values from the block scan, all None on failure |
| Dsat.DSATUtil.GetResultInfo | Service/dsat_util.py:131-155 | the ham and spam values from the same scan, both None on failure |
| Dsat.DSATUtil.ClickReport | Service/dsat_util.py:159-186 | the first pending report's label and link target, or (None, None); the browser is neither quit nor refreshed, and clicked once when a label is returned, at most once otherwise |
| Dsat.DSATUtil.GetSpamPercentage | Service/dsat_util.py:190-198 | the spam rate text as shown, or "(정보 없음)" |
| Dsat.DSATUtil.SetPageSize100 | Service/dsat_util.py:211-239 | the retry loop succeeds, refreshes and clicks exactly as the page-size specification says |
| Dsat.DSATUtil.RetryStep | Service/dsat_util.py:213-239 | one pass succeeds iff its attempt does; a failed attempt that is not the last refreshes once, and the loop goes on iff the section then reappears |
| Dsat.DSATUtil.TryPageSize | Service/dsat_util.py:214-231 | one attempt succeeds iff the control appears and already reads "100" or the "100" option is picked, and clicks accordingly |
| Dsat.DSATUtil.GetSpamDoc | Service/dsat_util.py:202-272 | the records the specification defines, or None; the only refreshes and clicks are those of the retry |
| Message.RowTexts | main.py:86-90 | one rendered line per record, the j-th line rendering the j-th record |
| Message.RowLinesInterleave | main.py:86-90 | the rendered body is exactly the row lines separated by newlines |
| Message.TableRowsInOrder | main.py:86-90 | the rendered table shows every record's row in record order |
| Message.MessageOrder | main.py:92-104 | the summary message is non-empty and holds the report label, spam rate, progress, table and report link in that order |
| Worker.CycleGating | main.py:66-76 | a cycle finishes iff login succeeds and a pending report's label and link are obtained, reporting the first pending card's label; otherwise it emits the matching error |
| Worker.ShareTextIffSpam | main.py:81-105 | the message is non-empty iff at least one spam record was extracted; the count is then the number of rows, and otherwise 0 |
| Worker.SummaryOrder | main.py:86-104 | a non-empty message embeds the five values in order and the table embeds every record row in order |
| Worker.Scrape | main.py:70-117 | after a successful login the reads and the report selection yield exactly the signal the cycle specification gives, and the browser is not quit |
| Worker.ScrapingWorker.constructor | main.py:55-60 | a new worker keeps its credentials and mode and has no browser |
| Worker.ScrapingWorker.Run | main.py:62-122 | exactly one signal is emitted, the one the cycle specification gives; the launched browser is quit exactly once; the closing line is written after the GUI was detached |
| Window.AgitShareWorker.constructor | main.py:128-130 | a share worker carries the text it was given |
| Window.MainWindow.constructor | main.py:153-165 | the window starts with no message and sharing disabled |
| Window.MainWindow.TriggerScraping | main.py:187-195 | starting a cycle disables sharing and creates a fresh worker with the entered credentials |
| Window.MainWindow.UpdateUiData | main.py:197-205 | the kept message is the cycle's, sharing is enabled iff it is non-empty, and the button label says which |
| Window.MainWindow.ShareToAgit | main.py:223-231 | with no message it only warns; otherwise it disables the button and starts a worker carrying exactly the kept message; the gate is preserved |
| Window.MainWindow.OnAgitShareFinished | main.py:233-240 | success labels the button "공유 완료"; failure re-enables it for a retry |

## Left out

- Timing: Selenium waits, timeouts, polling and the two-second pause after picking "100". Each wait is one yes/no answer of the site.
- Browser set-up: ChromeDriver installation, Chrome options and the window size. The headless flag is only recorded on the driver.
- Navigation: the URLs visited, and log lines that interpolate exception texts, URLs or read values. Log lines keep their level and fixed text.
- Failures outside the modelled answers: exceptions raised by `driver.quit()` or by the framework.
- Message.RenderTable: `tabulate` is not modelled. Its column padding and alignment are left out. So are its stripping of whitespace around string cells and its reparsing of number-like cells (it prints "1.50" as "1.5"). The model joins cells with two spaces and shows cell text unchanged. A NaN renders as "nan" and a None as the empty string.
- Browser.Site: one `statistics` answer serves both the queue-count read and the ham/spam read. In the source these are two separate waits for the blocks, which could see different pages.
- The GUI: PyQt threads, the timer, labels other than the share button, dialogs (counted as warnings only), `start_auto_refresh`, `stop_auto_refresh`, `handle_error`, `update_status_label`, `set_controls_enabled` and `closeEvent`. These only display or schedule.
- The log file and console output: the DEBUG level and unknown levels are not modelled, and only the appended lines are modelled. The traceback line written on error is not modelled.
- `Service/agit_webhook.py`: it performs the HTTP post, and `AgitShareWorker.run` delivers its outcome. Posting is not part of this model; `OnAgitShareFinished` takes its success flag as a parameter.
- `resource_path` and the application entry point: these are packaging only.
- Window.MainWindow.OnAgitShareFinished: it does not preserve the share gate. As in the source, a failed share re-enables the button even if a new cycle has since cleared the message.
