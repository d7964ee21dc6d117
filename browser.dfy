/**
 * The browser seen as an oracle. Every Selenium wait, lookup and click the
 * scraper performs is answered by a field of `Site`: a wait either yields its
 * element (Some / true) or times out (None / false). DOM content is reduced
 * to the texts and links the scraper reads.
 */
module Browser {
  import opened Wrappers

  /** Result of `find_element` on a sub-element followed by reading its text:
      the text, `NoSuchElementException`, or any other failure (for instance a
      stale element reference). */
  datatype Probe = Found(text: string) | NotFound | Detached

  /** One `ant-statistic` block: its title and its integer value element. */
  datatype StatBlock = StatBlock(title: Probe, value: Probe)

  /** The title link of a report card: visible text and `href` attribute
      (`get_attribute` yields None when the attribute is missing). */
  datatype Link = Link(text: string, href: Option<string>)

  /** One report card (`div.ant-list-item`): its full text and, when present,
      the link inside `div.ant-card-meta-title`. */
  datatype Card = Card(text: string, titleLink: Option<Link>)

  /** One `td` of the spam table: its text and the `a` inside it, if any,
      given by its `href` attribute (None: the anchor has no `href`). */
  datatype Cell = Cell(text: string, anchor: Option<Option<string>>)

  /** The spam table: raw `thead th` texts and the cells of each body row. */
  datatype Table = Table(headerCells: seq<string>, rows: seq<seq<Cell>>)

  /** What one attempt at setting the page size shows: the page-size control's
      text (None: the control never became clickable), whether opening it and
      clicking the "100" option worked, and whether the spam-list section came
      back after the refresh that follows a failed attempt. */
  datatype PageSizeTry = PageSizeTry(dropdown: Option<string>, optionClicked: bool, sectionReappears: bool)

  /** Every answer the dashboard gives during one scraping cycle. */
  datatype Site = Site(
    launches: bool,                       // driver install and browser start succeed
    usernameField: bool,                  // #username appears within 15 s
    passwordField: bool,                  // #password appears within 15 s
    shellRendered: bool,                  // application header appears within 60 s
    progress: Option<string>,             // ant-progress-text within 10 s
    statistics: Option<seq<StatBlock>>,   // all ant-statistic blocks within 10 s
    reportCards: Option<seq<Card>>,       // report list visible within 25 s
    linkClickable: bool,                  // the chosen card's link becomes clickable
    detailShown: bool,                    // detail-page marker visible within 20 s
    spamRate: Option<string>,             // spam-rate cell visible within 10 s
    spamSection: bool,                    // section#spam-list present within 15 s
    pageSizeTries: seq<PageSizeTry>,      // answers for attempts 0, 1, 2, ...
    spamTable: Option<Table>              // div.ant-table-wrapper inside the section
  )

  /** One live browser session (a Selenium WebDriver). The counters record the
      effects the scraper has on it. */
  class Driver {
    const site: Site
    const headless: bool
    ghost var quits: nat
    ghost var refreshes: nat
    ghost var clicks: nat

    constructor (site: Site, headless: bool)
      ensures this.site == site && this.headless == headless
      ensures quits == 0 && refreshes == 0 && clicks == 0
    {
      this.site := site;
      this.headless := headless;
      quits, refreshes, clicks := 0, 0, 0;
    }

    /** `driver.quit()`. */
    method Quit()
      modifies this
      ensures quits == old(quits) + 1
      ensures refreshes == old(refreshes) && clicks == old(clicks)
    {
      quits := quits + 1;
    }

    /** `driver.refresh()`. */
    method Refresh()
      modifies this
      ensures refreshes == old(refreshes) + 1
      ensures quits == old(quits) && clicks == old(clicks)
    {
      refreshes := refreshes + 1;
    }

    /** `element.click()` on an element of this page. */
    method Click()
      modifies this
      ensures clicks == old(clicks) + 1
      ensures quits == old(quits) && refreshes == old(refreshes)
    {
      clicks := clicks + 1;
    }
  }
}
