/**
 * The parts of `MainWindow` that gate sharing: the message kept from the last
 * finished cycle, the share button's state, and the share worker it starts.
 */
module Window {
  import opened Worker

  const ShareLabel: string := "아지트 공유하기"
  const NothingToShareLabel: string := "공유할 스팸 없음"
  const SharingLabel: string := "공유 중..."
  const SharedLabel: string := "공유 완료"

  /** The background job that posts one message to the webhook. */
  class AgitShareWorker {
    const text: string

    constructor (text: string)
      ensures this.text == text
    {
      this.text := text;
    }
  }

  class MainWindow {
    var agitTxt: string
    var shareEnabled: bool
    var shareLabel: string
    var worker: ScrapingWorker?
    var agitWorker: AgitShareWorker?
    /** Warning dialogs shown so far. */
    ghost var warnings: nat

    /** The share button is enabled only when there is something to share. */
    ghost predicate ShareGated()
      reads this
    {
      shareEnabled ==> agitTxt != ""
    }

    constructor ()
      ensures agitTxt == "" && !shareEnabled && worker == null && agitWorker == null
      ensures warnings == 0 && ShareGated()
    {
      agitTxt := "";
      shareEnabled := false;
      shareLabel := ShareLabel;
      worker := null;
      agitWorker := null;
      warnings := 0;
    }

    /** Starts a new cycle: the share button is disabled until it finishes. */
    method TriggerScraping(username: string, password: string, headless: bool)
      modifies this
      ensures !shareEnabled && ShareGated()
      ensures worker != null && fresh(worker) && worker.emitted == [] && worker.driver == null
      ensures worker.username == username && worker.password == password && worker.headlessMode == headless
      ensures agitTxt == old(agitTxt) && shareLabel == old(shareLabel)
      ensures agitWorker == old(agitWorker) && warnings == old(warnings)
    {
      shareEnabled := false;
      worker := new ScrapingWorker(username, password, headless);
    }

    /** Keeps the message of a finished cycle and enables sharing exactly when
        it is non-empty. */
    method UpdateUiData(data: CycleResult)
      modifies this
      ensures agitTxt == data.agitTxt
      ensures shareEnabled <==> data.agitTxt != ""
      ensures shareLabel == (if data.agitTxt != "" then ShareLabel else NothingToShareLabel)
      ensures ShareGated()
      ensures worker == old(worker) && agitWorker == old(agitWorker) && warnings == old(warnings)
    {
      agitTxt := data.agitTxt;
      shareEnabled := agitTxt != "";
      shareLabel := if agitTxt != "" then ShareLabel else NothingToShareLabel;
    }

    /** Shares the kept message: with no message it only warns and starts
        nothing; otherwise it disables the button and starts a share worker
        carrying exactly that message. */
    method ShareToAgit()
      modifies this
      ensures agitTxt == old(agitTxt) && worker == old(worker)
      ensures agitTxt == "" ==>
        agitWorker == old(agitWorker) && shareEnabled == old(shareEnabled)
        && shareLabel == old(shareLabel) && warnings == old(warnings) + 1
      ensures agitTxt != "" ==>
        agitWorker != null && fresh(agitWorker) && agitWorker.text == agitTxt
        && !shareEnabled && shareLabel == SharingLabel && warnings == old(warnings)
      ensures old(ShareGated()) ==> ShareGated()
    {
      if agitTxt == "" {
        warnings := warnings + 1;
        return;
      }
      shareEnabled := false;
      shareLabel := SharingLabel;
      agitWorker := new AgitShareWorker(agitTxt);
    }

    /** After a share attempt: on success the button stays disabled; on
        failure it is enabled again for a retry. */
    method OnAgitShareFinished(success: bool)
      modifies this
      ensures shareEnabled == (if success then old(shareEnabled) else true)
      ensures shareLabel == (if success then SharedLabel else ShareLabel)
      ensures agitTxt == old(agitTxt) && worker == old(worker) && agitWorker == old(agitWorker)
      ensures warnings == old(warnings)
    {
      if success {
        shareLabel := SharedLabel;
      } else {
        shareEnabled := true;
        shareLabel := ShareLabel;
      }
    }
  }
}
