/**
 * The statistic-block scan shared by the queue-count and ham/spam reads: a
 * label-matched fold over the dashboard's `ant-statistic` blocks where the
 * last block carrying a label decides that label's value.
 */
module Statistics {
  import opened Wrappers
  import opened Text
  import opened Browser

  /** Titles of the queue-count blocks: pending, in progress, completed. */
  const QueueLabels: seq<string> := ["평가대기", "평가진행", "평가완료"]

  /** Titles of the result-count blocks: ham, spam. */
  const ResultLabels: seq<string> := ["햄", "스팸"]

  /** What reading one block does to the scan: a missing title or value
      element skips the block, any other failure ends the whole read, and a
      complete block yields its stripped title and value. */
  datatype Step = Skip | Abort | Hit(title: string, value: string)

  function Classify(b: StatBlock): Step {
    match b.title
    case NotFound => Skip
    case Detached => Abort
    case Found(t) =>
      match b.value
      case NotFound => Skip
      case Detached => Abort
      case Found(v) => Hit(Strip(t), Strip(v))
  }

  /** The three outcomes of reading one block, each stated by what the
      block's title and value elements give. */
  lemma ClassifyCases(b: StatBlock)
    ensures Classify(b).Skip? <==> b.title.NotFound? || (b.title.Found? && b.value.NotFound?)
    ensures Classify(b).Abort? <==> b.title.Detached? || (b.title.Found? && b.value.Detached?)
    ensures Classify(b).Hit? <==> b.title.Found? && b.value.Found?
    ensures Classify(b).Hit? ==>
      Classify(b).title == Strip(b.title.text) && Classify(b).value == Strip(b.value.text)
  {
  }

  /** Block `b` is complete and titled `name`. */
  predicate HitFor(b: StatBlock, name: string) {
    Classify(b).Hit? && Classify(b).title == name
  }

  /** The value of the last complete block titled `name`, if any. */
  function LastValue(blocks: seq<StatBlock>, name: string): Option<string> {
    if blocks == [] then None
    else if HitFor(blocks[|blocks| - 1], name) then Some(Classify(blocks[|blocks| - 1]).value)
    else LastValue(blocks[..|blocks| - 1], name)
  }

  /** Some block makes the read fail as a whole. */
  predicate Aborts(blocks: seq<StatBlock>) {
    exists i :: 0 <= i < |blocks| && Classify(blocks[i]).Abort?
  }

  /** One None per label: the result of a failed read. */
  function NoValues(n: nat): seq<Option<string>> {
    seq(n, _ => None)
  }

  /** The values the scan reports, one per label, in label order. */
  function StatValues(blocks: seq<StatBlock>, labels: seq<string>): seq<Option<string>> {
    if Aborts(blocks) then NoValues(|labels|)
    else seq(|labels|, k requires 0 <= k < |labels| => LastValue(blocks, labels[k]))
  }

  /** The whole read, including the wait for the blocks (None: it timed out). */
  function StatisticRead(statistics: Option<seq<StatBlock>>, labels: seq<string>): seq<Option<string>> {
    match statistics
    case None => NoValues(|labels|)
    case Some(blocks) => StatValues(blocks, labels)
  }

  /** The scan loop: every label starts as None and a complete block whose
      title is a label overwrites that label's value. QueueLabels and
      ResultLabels each hold distinct titles, so a title matches at most one
      label and a first-match chain of title tests updates the same value. */
  method ScanStatistics(blocks: seq<StatBlock>, labels: seq<string>) returns (values: seq<Option<string>>)
    ensures values == StatValues(blocks, labels)
  {
    values := NoValues(|labels|);
    for i := 0 to |blocks|
      invariant |values| == |labels|
      invariant !Aborts(blocks[..i])
      invariant forall k :: 0 <= k < |labels| ==> values[k] == LastValue(blocks[..i], labels[k])
    {
      ScanStep(blocks, i);
      match Classify(blocks[i])
      case Skip =>
      case Abort =>
        return NoValues(|labels|);
      case Hit(title, value) =>
        values := seq(|labels|, k requires 0 <= k < |labels| =>
                        if labels[k] == title then Some(value) else values[k]);
    }
    assert blocks[..|blocks|] == blocks;
  }

  /** How one more block extends the scan of a prefix. */
  lemma ScanStep(blocks: seq<StatBlock>, i: nat)
    requires i < |blocks|
    ensures forall name :: (LastValue(blocks[..i + 1], name)
      == if HitFor(blocks[i], name) then Some(Classify(blocks[i]).value) else LastValue(blocks[..i], name))
    ensures Aborts(blocks[..i + 1]) <==> Aborts(blocks[..i]) || Classify(blocks[i]).Abort?
    ensures Classify(blocks[i]).Abort? ==> Aborts(blocks)
  {
    var pre, ext := blocks[..i], blocks[..i + 1];
    assert ext[..i] == pre;
    assert ext[i] == blocks[i];
    if Aborts(ext) && !Classify(blocks[i]).Abort? {
      var j :| 0 <= j < |ext| && Classify(ext[j]).Abort?;
      assert pre[j] == ext[j];
    }
    if Aborts(pre) {
      var j :| 0 <= j < |pre| && Classify(pre[j]).Abort?;
      assert ext[j] == pre[j];
    }
  }

  /** Block i is the last complete block titled `name`. */
  predicate LastHitAt(blocks: seq<StatBlock>, name: string, i: int) {
    0 <= i < |blocks| && HitFor(blocks[i], name)
    && forall j :: i < j < |blocks| ==> !HitFor(blocks[j], name)
  }

  /** `LastValue` is the value of the last complete block titled `name`;
      it is None exactly when no block carries that title. */
  lemma {:induction false} LastValueIsLastHit(blocks: seq<StatBlock>, name: string)
    ensures LastValue(blocks, name).None? <==> forall i :: 0 <= i < |blocks| ==> !HitFor(blocks[i], name)
    ensures LastValue(blocks, name).Some? ==>
      exists i :: LastHitAt(blocks, name, i) && Classify(blocks[i]).value == LastValue(blocks, name).value
  {
    if blocks != [] {
      var n := |blocks| - 1;
      var init := blocks[..n];
      LastValueIsLastHit(init, name);
      if HitFor(blocks[n], name) {
        assert LastHitAt(blocks, name, n);
      } else {
        assert LastValue(blocks, name) == LastValue(init, name);
        if LastValue(init, name).Some? {
          var i :| LastHitAt(init, name, i) && Classify(init[i]).value == LastValue(init, name).value;
          assert blocks[i] == init[i];
          assert LastHitAt(blocks, name, i) by {
            forall j | i < j < |blocks| ensures !HitFor(blocks[j], name) {
              if j < n { assert blocks[j] == init[j]; }
            }
          }
        } else {
          forall j | 0 <= j < |blocks| ensures !HitFor(blocks[j], name) {
            if j < n { assert blocks[j] == init[j]; }
          }
        }
      }
    }
  }

  /** A label that no complete block carries is reported as None. */
  lemma NoMatchMeansNone(blocks: seq<StatBlock>, labels: seq<string>, k: nat)
    requires k < |labels|
    requires forall i :: 0 <= i < |blocks| ==> !HitFor(blocks[i], labels[k])
    ensures StatValues(blocks, labels)[k] == None
  {
    LastValueIsLastHit(blocks, labels[k]);
  }

  /** Appending a block that neither aborts nor matches a label changes no value. */
  lemma {:induction false} InertBlockKeepsValues(blocks: seq<StatBlock>, b: StatBlock, labels: seq<string>)
    requires !Classify(b).Abort?
    requires forall k :: 0 <= k < |labels| ==> !HitFor(b, labels[k])
    ensures StatValues(blocks + [b], labels) == StatValues(blocks, labels)
  {
    var ext := blocks + [b];
    assert ext[..|blocks|] == blocks;
    assert Aborts(ext) == Aborts(blocks) by {
      if Aborts(ext) {
        var i :| 0 <= i < |ext| && Classify(ext[i]).Abort?;
        assert i < |blocks| && ext[i] == blocks[i];
      }
      if Aborts(blocks) {
        var i :| 0 <= i < |blocks| && Classify(blocks[i]).Abort?;
        assert ext[i] == blocks[i];
      }
    }
  }

  /** A block whose title or value element is missing is skipped: the scan
      goes on and no value changes. */
  lemma SkippedBlockKeepsValues(blocks: seq<StatBlock>, b: StatBlock, labels: seq<string>)
    requires b.title.NotFound? || (b.title.Found? && b.value.NotFound?)
    ensures StatValues(blocks + [b], labels) == StatValues(blocks, labels)
  {
    InertBlockKeepsValues(blocks, b, labels);
  }

  /** A complete block whose stripped title is none of the labels changes no value. */
  lemma UnknownTitleKeepsValues(blocks: seq<StatBlock>, b: StatBlock, labels: seq<string>)
    requires b.title.Found? && b.value.Found?
    requires Strip(b.title.text) !in labels
    ensures StatValues(blocks + [b], labels) == StatValues(blocks, labels)
  {
    InertBlockKeepsValues(blocks, b, labels);
  }

  /** A later block carrying label k overwrites whatever an earlier one set. */
  lemma {:induction false} LaterBlockOverwrites(blocks: seq<StatBlock>, b: StatBlock, labels: seq<string>, k: nat)
    requires k < |labels| && HitFor(b, labels[k])
    requires !Aborts(blocks)
    ensures StatValues(blocks + [b], labels)[k] == Some(Strip(b.value.text))
  {
    var ext := blocks + [b];
    assert ext[..|blocks|] == blocks;
    assert !Aborts(ext) by {
      forall i | 0 <= i < |ext| ensures !Classify(ext[i]).Abort? {
        if i < |blocks| { assert ext[i] == blocks[i]; }
      }
    }
  }

  /** Any block that fails other than by a missing element makes every value None. */
  lemma FailingBlockClearsAll(blocks: seq<StatBlock>, i: nat, labels: seq<string>, k: nat)
    requires i < |blocks| && Classify(blocks[i]).Abort?
    requires k < |labels|
    ensures StatValues(blocks, labels)[k] == None
  {
    assert Classify(blocks[i]).Abort?;
  }
}
