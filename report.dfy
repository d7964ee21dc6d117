/**
 * Choosing the report to open: the first card of the report list whose text
 * carries the pending-status marker.
 */
module Report {
  import opened Wrappers
  import opened Text
  import opened Browser

  /** Status text of a report that is waiting for evaluation. */
  const PendingMarker: string := "대기중"

  predicate IsPending(c: Card) {
    Contains(c.text, PendingMarker)
  }

  /** Index of the first pending card. */
  function FirstPending(cards: seq<Card>): Option<nat> {
    if cards == [] then None
    else if IsPending(cards[0]) then Some(0)
    else match FirstPending(cards[1..])
      case None => None
      case Some(i) => Some(i + 1)
  }

  /** `FirstPending` finds the first card containing the marker, and finds
      nothing exactly when no card contains it. */
  lemma {:induction false} FirstPendingIsFirst(cards: seq<Card>)
    ensures FirstPending(cards).None? <==> forall j :: 0 <= j < |cards| ==> !IsPending(cards[j])
    ensures FirstPending(cards).Some? ==>
      FirstPending(cards).value < |cards| && IsPending(cards[FirstPending(cards).value])
      && forall j :: 0 <= j < FirstPending(cards).value ==> !IsPending(cards[j])
  {
    if cards != [] && !IsPending(cards[0]) {
      FirstPendingIsFirst(cards[1..]);
      assert forall j :: 1 <= j < |cards| ==> cards[j] == cards[1..][j - 1];
    }
  }

  /** The card loop: stops at the first card whose text contains the marker. */
  method FindPendingCard(cards: seq<Card>) returns (found: Option<nat>)
    ensures found == FirstPending(cards)
  {
    found := None;
    var i := 0;
    while i < |cards|
      invariant 0 <= i <= |cards|
      invariant FirstPending(cards) == (match FirstPending(cards[i..])
                                         case None => None
                                         case Some(j) => Some(i + j))
    {
      assert cards[i..][1..] == cards[i + 1..];
      if IsPending(cards[i]) {
        found := Some(i);
        return;
      }
      i := i + 1;
    }
  }

  /** The label and link target that `click_report` returns for a site: those
      of the first pending card, once its link was clicked and the detail page
      showed; (None, None) on any failure along the way. */
  function ReportLink(site: Site): (Option<string>, Option<string>) {
    match site.reportCards
    case None => (None, None)
    case Some(cards) =>
      FirstPendingIsFirst(cards);
      match FirstPending(cards)
      case None => (None, None)
      case Some(i) =>
        match cards[i].titleLink
        case None => (None, None)
        case Some(link) =>
          if site.linkClickable && site.detailShown then (Some(link.text), link.href) else (None, None)
  }

  /** A label is returned only for the first pending card, and then it is
      that card's link text, the href being that link's target. */
  lemma ReportLinkIsFirstPending(site: Site)
    ensures ReportLink(site).0.Some? ==>
      site.reportCards.Some? && FirstPending(site.reportCards.value).Some?
      && var cards, i := site.reportCards.value, FirstPending(site.reportCards.value).value;
         i < |cards| && IsPending(cards[i])
         && (forall j :: 0 <= j < i ==> !IsPending(cards[j]))
         && cards[i].titleLink == Some(Link(ReportLink(site).0.value, ReportLink(site).1))
    ensures ReportLink(site).0.None? ==> ReportLink(site).1.None?
  {
    if site.reportCards.Some? {
      FirstPendingIsFirst(site.reportCards.value);
    }
  }

  /** With no pending card in the list, nothing is selected. */
  lemma NoPendingCardNoLink(site: Site)
    requires site.reportCards.Some?
    requires forall j :: 0 <= j < |site.reportCards.value| ==> !IsPending(site.reportCards.value[j])
    ensures ReportLink(site) == (None, None)
  {
    FirstPendingIsFirst(site.reportCards.value);
  }
}
