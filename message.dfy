/**
 * The summary message posted for a cycle: the spam table rendered as plain
 * text and embedded, with the report label, spam rate, progress and report
 * link, in a fixed template.
 */
module Message {
  import opened Wrappers
  import opened SpamTable

  /** `gaps[0] + parts[0] + gaps[1] + ... + parts[n-1] + gaps[n]`. */
  function Interleave(gaps: seq<string>, parts: seq<string>): string
    requires |gaps| == |parts| + 1
  {
    if parts == [] then gaps[0]
    else gaps[0] + parts[0] + Interleave(gaps[1..], parts[1..])
  }

  /** `parts` occur in `s` in this order, without overlapping. */
  ghost predicate AppearInOrder(s: string, parts: seq<string>) {
    exists gaps :: |gaps| == |parts| + 1 && s == Interleave(gaps, parts)
  }

  // ---------------------------------------------------------------------------
  // Table rendering (tabulate, plain format)

  const ColumnGap: string := "  "

  /** A NaN renders as "nan" and a None as tabulate's empty missing value. */
  function RenderValue(v: Field): string {
    match v
    case NaN => "nan"
    case NoneValue => ""
    case Text(s) => s
  }

  function RenderRow(rec: Record): string {
    RenderValue(Column(rec, SearchTermHeader)) + ColumnGap
      + RenderValue(Column(rec, ReasonHeader)) + ColumnGap
      + RenderValue(Column(rec, UrlHeader))
  }

  const HeaderLine: string := SearchTermHeader + ColumnGap + ReasonHeader + ColumnGap + UrlHeader

  /** One line per record, each preceded by a newline. */
  function RowLines(rs: seq<Record>): string {
    if rs == [] then "" else "\n" + RenderRow(rs[0]) + RowLines(rs[1..])
  }

  function RenderTable(rs: seq<Record>): string {
    HeaderLine + RowLines(rs)
  }

  /** The rendered rows, in record order. */
  function RowTexts(rs: seq<Record>): (r: seq<string>)
    ensures |r| == |rs|
    ensures forall j :: 0 <= j < |rs| ==> r[j] == RenderRow(rs[j])
  {
    if rs == [] then [] else [RenderRow(rs[0])] + RowTexts(rs[1..])
  }

  /** The text around the rows: `pre` and a newline before the first, a
      newline between two, nothing after the last. */
  function RowGaps(pre: string, n: nat): (r: seq<string>)
    ensures |r| == n + 1
    decreases n
  {
    if n == 0 then [pre] else [pre + "\n"] + RowGaps("", n - 1)
  }

  lemma {:induction false} RowLinesInterleave(pre: string, rs: seq<Record>)
    ensures pre + RowLines(rs) == Interleave(RowGaps(pre, |rs|), RowTexts(rs))
    decreases |rs|
  {
    if rs != [] {
      RowLinesInterleave("", rs[1..]);
      assert RowGaps(pre, |rs|)[1..] == RowGaps("", |rs| - 1);
      assert RowTexts(rs)[1..] == RowTexts(rs[1..]);
      assert "" + RowLines(rs[1..]) == RowLines(rs[1..]);
    }
  }

  /** The rendered table shows every record's row, in record order. */
  lemma TableRowsInOrder(rs: seq<Record>)
    ensures AppearInOrder(RenderTable(rs), RowTexts(rs))
  {
    RowLinesInterleave(HeaderLine, rs);
  }

  // ---------------------------------------------------------------------------
  // The message

  const Rule: string := "────────────────────────────────"

  /** The fixed text between the embedded values. */
  const Opening: string := "<인덱스평가 *"
  const BeforeRate: string := "* 스팸 발생 현황 알림>\n# 스팸률은 현재 "
  const BeforeProgress: string := "입니다.\n# 평가 진행률은 현재 "
  const BeforeTable: string := "입니다.\n\n" + Rule + "\n*[스팸 문서 목록]*\n"
  const BeforeLink: string := "\n" + Rule + "\n[리포트 페이지 : "
  const Closing: string := "]\n\n\n@namoo.kim@@index"

  /** The message text for a report label, spam rate, progress, rendered
      table and report link. */
  function AgitText(linkTxt: string, spamPercentage: string, progress: string, table: string, linkHref: string): string {
    Opening + linkTxt + BeforeRate + spamPercentage + BeforeProgress + progress
      + BeforeTable + table + BeforeLink + linkHref + Closing
  }

  /** The message is never empty and embeds, in this order, the report label,
      the spam rate, the progress, the table and the report link. */
  lemma MessageOrder(linkTxt: string, spamPercentage: string, progress: string, table: string, linkHref: string)
    ensures AgitText(linkTxt, spamPercentage, progress, table, linkHref) != ""
    ensures AppearInOrder(AgitText(linkTxt, spamPercentage, progress, table, linkHref),
                          [linkTxt, spamPercentage, progress, table, linkHref])
  {
    assert |Opening| > 0;
    FiveInterleave(Opening, BeforeRate, BeforeProgress, BeforeTable, BeforeLink, Closing,
                   linkTxt, spamPercentage, progress, table, linkHref);
  }

  /** Interleaving six gaps with five parts, written out. */
  lemma FiveInterleave(g0: string, g1: string, g2: string, g3: string, g4: string, g5: string,
                       p0: string, p1: string, p2: string, p3: string, p4: string)
    ensures Interleave([g0, g1, g2, g3, g4, g5], [p0, p1, p2, p3, p4])
      == g0 + p0 + g1 + p1 + g2 + p2 + g3 + p3 + g4 + p4 + g5
  {
    var t4 := g4 + p4 + g5;
    assert Interleave([g4, g5], [p4]) == t4 by {
      assert [g4, g5][1..] == [g5];
    }
    var t3 := g3 + p3 + t4;
    assert Interleave([g3, g4, g5], [p3, p4]) == t3 by {
      assert [g3, g4, g5][1..] == [g4, g5] && [p3, p4][1..] == [p4];
    }
    var t2 := g2 + p2 + t3;
    assert Interleave([g2, g3, g4, g5], [p2, p3, p4]) == t2 by {
      assert [g2, g3, g4, g5][1..] == [g3, g4, g5] && [p2, p3, p4][1..] == [p3, p4];
    }
    var t1 := g1 + p1 + t2;
    assert Interleave([g1, g2, g3, g4, g5], [p1, p2, p3, p4]) == t1 by {
      assert [g1, g2, g3, g4, g5][1..] == [g2, g3, g4, g5] && [p1, p2, p3, p4][1..] == [p2, p3, p4];
    }
    assert [g0, g1, g2, g3, g4, g5][1..] == [g1, g2, g3, g4, g5];
    assert [p0, p1, p2, p3, p4][1..] == [p1, p2, p3, p4];
  }
}
