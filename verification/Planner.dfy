/** The bounded loop that explores a site no adapter covers. */
module Planner {
  import opened Common

  /** Identifiers of page elements are generated, so never empty. */
  type ElementId = id: string | id != "" witness "L1"

  datatype ActionKind = FollowLink | Click | Scroll | Wait | GoBack | ExtractRelease | RequestMoreContext | Abort

  datatype Action = Action(kind: ActionKind, target: Option<string>, confidence: real)

  datatype Link = Link(id: ElementId, text: string, href: string)

  datatype Page = Page(
    url: string,
    stateHash: string,
    title: string,
    headings: seq<string>,
    visibleText: string,
    links: seq<Link>,
    downloadsDetected: seq<string>,
    pagination: seq<string>,
    targets: seq<ElementId>)

  datatype Release = Release(name: string, downloadCandidates: seq<string>)

  datatype Record = Record(url: string, stateHash: string, action: Action)

  datatype Status = Success | LayoutChanged | ChallengeRequired | TemporaryFailure | ManualReview

  datatype PlannerResult = PlannerResult(
    status: Status,
    releases: seq<Release>,
    finalPage: Option<Page>,
    visitedUrls: seq<string>,
    actionHistory: seq<Record>,
    geminiCalls: nat,
    browserActions: nat)

  datatype Limits = Limits(pages: nat, actionsPerPage: nat, actions: nat, geminiCalls: nat, navigationDepth: nat,
                           runtime: real)

  type Budget = b: Limits |
    b.pages > 0 && b.actionsPerPage > 0 && b.actions > 0 && b.geminiCalls > 0 && b.navigationDepth > 0 &&
        b.runtime > 0.0
    witness Limits(20, 8, 40, 6, 6, 180.0)

  /**
   * Everything outside the loop, each answer indexed by how often it was asked: the page a session shows, whether an
   * action fails in the browser, what the interpreter decides, what the adapter finds, and the clock.
   */
  datatype World = World(
    snapshot: nat -> Page,
    executes: nat -> bool,
    decide: nat -> Option<Action>,
    discover: (nat, Page) -> seq<Release>,
    clock: nat -> real,
    challenge: string -> bool,
    latest: string -> bool)

  // What the loop computes with.

  predicate Navigates(kind: ActionKind) {
    kind == FollowLink || kind == Click
  }

  predicate StaysOnPage(kind: ActionKind) {
    kind == ExtractRelease || kind == RequestMoreContext
  }

  predicate HasDownload(releases: seq<Release>) {
    exists k | 0 <= k < |releases| :: releases[k].downloadCandidates != []
  }

  lemma HasDownloadIff(releases: seq<Release>)
    ensures HasDownload(releases) <==> exists release | release in releases :: release.downloadCandidates != []
  {
  }

  predicate Challenged(world: World, page: Page) {
    world.challenge(page.title + " " + page.visibleText)
  }

  function FirstDownload(links: seq<Link>, detected: seq<string>): (link: Option<Link>)
    ensures link.Some? ==> link.value in links && link.value.id in detected
    ensures link.None? ==> forall l | l in links :: l.id !in detected
  {
    if links == [] then None
    else if links[0].id in detected then Some(links[0])
    else FirstDownload(links[1..], detected)
  }

  function FirstLatest(world: World, links: seq<Link>, pagination: seq<string>): (link: Option<Link>)
    ensures link.Some? ==> link.value in links && link.value.id !in pagination
    ensures link.None? ==> forall l | l in links && world.latest(l.text + " " + l.href) :: l.id in pagination
  {
    if links == [] then None
    else if world.latest(links[0].text + " " + links[0].href) && links[0].id !in pagination then Some(links[0])
    else FirstLatest(world, links[1..], pagination)
  }

  function HeuristicAction(world: World, page: Page): Option<Action> {
    var download := FirstDownload(page.links, page.downloadsDetected);
    var latest := FirstLatest(world, page.links, page.pagination);
    if page.downloadsDetected != [] && download.Some? then Some(Action(FollowLink, Some(download.value.id), 0.82))
    else if latest.Some? then Some(Action(FollowLink, Some(latest.value.id), 0.7))
    else if page.headings != [] || page.title != "" then Some(Action(ExtractRelease, None, 0.65))
    else None
  }

  /** The local heuristics only ever follow a link of the page, and never one that merely turns pages. */
  lemma HeuristicFollowsLinks(world: World, page: Page)
    ensures HeuristicAction(world, page).Some? && HeuristicAction(world, page).value.kind != ExtractRelease ==>
              exists l | l in page.links ::
                && HeuristicAction(world, page).value.kind ==
                    FollowLink && HeuristicAction(world, page).value.target == Some(l.id)
                && (l.id in page.downloadsDetected || l.id !in page.pagination)
    ensures HeuristicAction(world, page).None? ==> page.title == "" && page.headings == []
  {
  }

  lemma {:induction false} FirstDownloadIs(links: seq<Link>, detected: seq<string>, k: nat)
    requires k < |links| && links[k].id in detected && forall j | 0 <= j < k :: links[j].id !in detected
    ensures FirstDownload(links, detected) == Some(links[k])
  {
    if k > 0 {
      FirstDownloadIs(links[1..], detected, k - 1);
    }
  }

  /** A link that looks like a release and is not there to turn pages. */
  predicate LeadsToRelease(world: World, page: Page, link: Link) {
    world.latest(link.text + " " + link.href) && link.id !in page.pagination
  }

  lemma {:induction false} FirstLatestIs(world: World, page: Page, links: seq<Link>, k: nat)
    requires k < |links| && LeadsToRelease(world, page, links[k])
    requires forall j | 0 <= j < k :: !LeadsToRelease(world, page, links[j])
    ensures FirstLatest(world, links, page.pagination) == Some(links[k])
  {
    if k > 0 {
      FirstLatestIs(world, page, links[1..], k - 1);
    } else {
      assert LeadsToRelease(world, page, links[0]);
    }
  }

  lemma {:induction false} NoLatest(world: World, page: Page, links: seq<Link>)
    requires forall l | l in links :: !LeadsToRelease(world, page, l)
    ensures FirstLatest(world, links, page.pagination) == None
  {
    if links == [] {
    } else {
      assert !LeadsToRelease(world, page, links[0]);
      NoLatest(world, page, links[1..]);
    }
  }

  /**
   * What the heuristics choose on any page: the first link behind which a download was detected; failing that, the
   * first link that leads to a release; failing both, the page itself if it has a title or headings.
   */
  lemma HeuristicOrder(world: World, page: Page)
    ensures forall k | 0 <= k < |page.links| && page.links[k].id in page.downloadsDetected
                       && (forall j | 0 <= j < k :: page.links[j].id !in page.downloadsDetected) ::
              HeuristicAction(world, page) == Some(Action(FollowLink, Some(page.links[k].id), 0.82))
    ensures (forall l | l in page.links :: l.id !in page.downloadsDetected) ==>
              && (forall k | 0 <= k < |page.links| && LeadsToRelease(world, page, page.links[k])
                             && (forall j | 0 <= j < k :: !LeadsToRelease(world, page, page.links[j])) ::
                    HeuristicAction(world, page) == Some(Action(FollowLink, Some(page.links[k].id), 0.7)))
              && ((forall l | l in page.links :: !LeadsToRelease(world, page, l)) ==>
                    HeuristicAction(world, page) ==
                      if page.title == "" && page.headings == [] then None
                      else Some(Action(ExtractRelease, None, 0.65)))
  {
    forall k | 0 <= k < |page.links| && page.links[k].id in page.downloadsDetected
               && (forall j | 0 <= j < k :: page.links[j].id !in page.downloadsDetected)
      ensures HeuristicAction(world, page) == Some(Action(FollowLink, Some(page.links[k].id), 0.82)) {
      FirstDownloadIs(page.links, page.downloadsDetected, k);
    }
    if forall l | l in page.links :: l.id !in page.downloadsDetected {
      forall k | 0 <= k < |page.links| && LeadsToRelease(world, page, page.links[k])
                 && (forall j | 0 <= j < k :: !LeadsToRelease(world, page, page.links[j]))
        ensures HeuristicAction(world, page) == Some(Action(FollowLink, Some(page.links[k].id), 0.7)) {
        FirstLatestIs(world, page, page.links, k);
      }
      if forall l | l in page.links :: !LeadsToRelease(world, page, l) {
        NoLatest(world, page, page.links);
      }
    }
  }

  predicate NeedsInterpreter(world: World, page: Page) {
    HeuristicAction(world, page).None? || HeuristicAction(world, page).value.kind == ExtractRelease
  }

  predicate Unsure(action: Action) {
    action.confidence < 0.5 && action.kind != Abort && action.kind != RequestMoreContext
  }

  datatype Choice = Chosen(action: Action) | Stop(status: Status)

  function Deduplicated(urls: seq<string>): (unique: seq<string>) {
    if urls == [] then [] else
      var rest, last := Deduplicated(urls[..|urls| - 1]), urls[|urls| - 1];
      if last in rest then rest else rest + [last]
  }

  lemma {:induction false} DeduplicatedKeepsEachOnce(urls: seq<string>)
    ensures Distinct(Deduplicated(urls)) && Elements(Deduplicated(urls)) == Elements(urls)
  {
    if urls == [] {
    } else {
      DeduplicatedKeepsEachOnce(urls[..|urls| - 1]);
      assert urls == urls[..|urls| - 1] + [urls[|urls| - 1]];
      assert Elements(urls) == Elements(urls[..|urls| - 1]) + {urls[|urls| - 1]};
      var rest, last := Deduplicated(urls[..|urls| - 1]), urls[|urls| - 1];
      assert Elements(rest + [last]) == Elements(rest) + {last};
      if last in rest {
        assert last in Elements(rest);
      }
    }
  }

  // What a run looks like.

  /** The pages a run snapshot, and the actions it recorded on each. */
  datatype Trace = Trace(pages: seq<Page>, recorded: seq<seq<Record>>)

  ghost function Urls(pages: seq<Page>): seq<string> {
    seq(|pages|, k requires 0 <= k < |pages| => pages[k].url)
  }

  ghost function Flatten(recorded: seq<seq<Record>>): seq<Record> {
    if recorded == [] then [] else Flatten(recorded[..|recorded| - 1]) + recorded[|recorded| - 1]
  }

  ghost function Navigations(records: seq<Record>): nat {
    if records == [] then 0 else
      var kind := records[|records| - 1].action.kind;
      Navigations(records[..|records| - 1]) + if kind == FollowLink || kind == Click then 1 else 0
  }

  /** Where an action may come from: a link the heuristics found, or the interpreter when they found none. */
  ghost predicate ChosenOn(world: World, calls: nat, page: Page, record: Record) {
    && record.url == page.url && record.stateHash == page.stateHash
    && (record.action.target.Some? && record.action.target.value != "" ==> record.action.target.value in page.targets)
    && (record.action.confidence >= 0.5 || record.action.kind == Abort || record.action.kind == RequestMoreContext)
    && if NeedsInterpreter(world, page) then exists n: nat | n < calls :: world.decide(n) == Some(record.action)
       else HeuristicAction(world, page) == Some(record.action)
  }

  ghost predicate OnPage(world: World, budget: Budget, calls: nat, page: Page, records: seq<Record>) {
    && |records| <= budget.actionsPerPage
    && (forall r | r in records :: ChosenOn(world, calls, page, r))
    && forall k | 0 <= k < |records| - 1 ::
         records[k].action.kind == ExtractRelease || records[k].action.kind == RequestMoreContext
  }

  /** The last action on a page the run left was carried out by the browser. */
  ghost predicate Left(records: seq<Record>) {
    && records != []
    && var kind := records[|records| - 1].action.kind;
       kind != ExtractRelease && kind != RequestMoreContext && kind != Abort
  }

  ghost predicate Fresh(world: World, pages: seq<Page>) {
    && (forall k | 0 <= k < |pages| :: !Challenged(world, pages[k]))
    && forall i, j | 0 <= i < j < |pages| :: pages[i].stateHash != pages[j].stateHash
  }

  ghost predicate Repeats(pages: seq<Page>, page: Page) {
    exists k | 0 <= k < |pages| :: pages[k].stateHash == page.stateHash
  }

  /** Every page has the actions chosen on it, and all but the last were left by one browser action. */
  ghost predicate Walks(world: World, budget: Budget, calls: nat, t: Trace) {
    && |t.recorded| == |t.pages|
    && (forall k | 0 <= k < |t.pages| :: OnPage(world, budget, calls, t.pages[k], t.recorded[k]))
    && forall k | 0 <= k < |t.pages| - 1 :: Left(t.recorded[k])
  }

  ghost predicate WithinBudget(budget: Budget, t: Trace, calls: nat, actions: nat) {
    && |t.pages| <= budget.pages && calls <= budget.geminiCalls && actions <= budget.actions
  }

  /** The lists of the loop while the run walks along `t`. */
  ghost predicate Tracks(world: World, budget: Budget, t: Trace, visited: seq<string>, history: seq<Record>,
                         calls: nat) {
    && |t.recorded| == |t.pages| && Walks(world, budget, calls, t) && WithinBudget(budget, t, calls, |history|)
    && visited == Urls(t.pages) && history == Flatten(t.recorded)
  }

  ghost predicate AllLeft(t: Trace) {
    forall k | 0 <= k < |t.recorded| :: Left(t.recorded[k])
  }

  /** The pages before the last one. */
  ghost function Before(pages: seq<Page>): seq<Page> {
    if pages == [] then [] else pages[..|pages| - 1]
  }

  ghost predicate Discovered(world: World, page: Page, releases: seq<Release>) {
    exists n: nat :: world.discover(n, page) == releases
  }

  /** What a run reports about the pages it walked along. */
  ghost predicate Reports(world: World, budget: Budget, t: Trace, r: PlannerResult) {
    && Tracks(world, budget, t, Urls(t.pages), r.actionHistory, r.geminiCalls)
    && r.visitedUrls == Deduplicated(Urls(t.pages))
    && r.finalPage == (if t.pages == [] then None else Some(t.pages[|t.pages| - 1]))
  }

  /** How a run ends: which status, after how many browser actions and how deep. */
  ghost predicate Ends(world: World, budget: Budget, t: Trace, r: PlannerResult) {
    && r.browserActions <= |t.pages| <= r.browserActions + 1 && |t.recorded| == |t.pages|
    && Fresh(world, Before(t.pages))
    && (r.browserActions == |t.pages| ==> AllLeft(t) && Fresh(world, t.pages))
    && Navigations(Flatten(t.recorded[..r.browserActions])) <= budget.navigationDepth
    && Navigations(r.actionHistory) <= budget.navigationDepth + 1
    && (Navigations(r.actionHistory) > budget.navigationDepth ==> r.status == LayoutChanged)
    && (r.status == ChallengeRequired <==> r.finalPage.Some? && Challenged(world, r.finalPage.value))
    && (r.finalPage.Some? && r.status != ChallengeRequired && Repeats(Before(t.pages), r.finalPage.value) ==>
          r.status == LayoutChanged && r.browserActions < |t.pages| && t.recorded[r.browserActions] == [])
    && (r.status == Success <==> HasDownload(r.releases))
    && (if r.status == Success then r.finalPage.Some? && Discovered(world, r.finalPage.value,
                                                                    r.releases) else r.releases == [])
    && (forall k | 0 <= k < |r.actionHistory| && r.actionHistory[k].action.kind == Abort ::
          k == |r.actionHistory| - 1 && r.status == ManualReview)
  }

  /** The last word on what to do on a page: the heuristics', or the interpreter's where it is needed. */
  function LastChoice(world: World, page: Page, calls: nat): Option<Action> {
    if !NeedsInterpreter(world, page) then HeuristicAction(world, page)
    else if calls > 0 then world.decide(calls - 1) else None
  }

  predicate Unavailable(page: Page, action: Action) {
    action.target.Some? && action.target.value != "" && action.target.value !in page.targets
  }

  /** Why no action on this page could be chosen. */
  predicate Blocked(world: World, budget: Budget, page: Page, calls: nat, status: Status) {
    var choice := LastChoice(world, page, calls);
    match status
    case TemporaryFailure => NeedsInterpreter(world, page) && calls > 0 && choice.None?
    case ManualReview =>
      choice.Some? && choice.value.confidence < 0.5 && choice.value.kind != Abort
      && choice.value.kind != RequestMoreContext
    case LayoutChanged =>
      (NeedsInterpreter(world, page) && calls >= budget.geminiCalls) || (choice.Some? &&
          Unavailable(page, choice.value))
    case _ => false
  }

  /** A run reads the clock when it starts, before each page, and once more when it leaves the loop. */
  predicate TimeIsUp(world: World, budget: Budget, reading: nat) {
    world.clock(reading) - world.clock(0) >= budget.runtime
  }

  /** Why a run ended without success and without a challenge, before or after leaving its last page. */
  ghost predicate Explained(world: World, budget: Budget, t: Trace, status: Status, history: seq<Record>, calls: nat,
                            browserActions: nat)
  {
    var last, pages := |t.pages| - 1, |t.pages|;
    if browserActions == pages then
      && (pages >= budget.pages || world.clock(pages + 1) - world.clock(0) >= budget.runtime)
      && status == if world.clock(pages + 2) - world.clock(0) >= budget.runtime then TemporaryFailure else LayoutChanged
    else if pages == 0 || pages > |t.recorded| then false
    else
      || Blocked(world, budget, t.pages[last], calls, status)
      || (history != [] && history[|history| - 1].action.kind == Abort && status == ManualReview)
      || (status == TemporaryFailure && !world.executes(browserActions))
      || (status == LayoutChanged &&
           (|| Repeats(Before(t.pages), t.pages[last])
            || Navigations(history) > budget.navigationDepth
            || |history| >= budget.actions || |t.recorded[last]| >= budget.actionsPerPage))
  }

  /** The pages are those the session showed, in order. */
  ghost predicate FromSession(world: World, pages: seq<Page>) {
    forall k | 0 <= k < |pages| :: pages[k] == world.snapshot(k)
  }

  ghost function Extractions(records: seq<Record>): nat {
    if records == [] then 0 else
      Extractions(records[..|records| - 1]) + if records[|records| - 1].action.kind == ExtractRelease then 1 else 0
  }

  /** The pages searched for releases, in order: each page on arrival, and again for every action that asks for it. */
  ghost function PagesSearched(pages: seq<Page>, recorded: seq<seq<Record>>): seq<Page>
    requires |pages| == |recorded|
  {
    if pages == [] then [] else
      var last := |pages| - 1;
      PagesSearched(pages[..last], recorded[..last]) + [pages[last]]
      + seq(Extractions(recorded[last]), _ => pages[last])
  }

  ghost predicate InVain(world: World, searched: seq<Page>) {
    forall n, release | 0 <= n < |searched| && release in world.discover(n, searched[n]) ::
      release.downloadCandidates == []
  }

  /** The last page is not one the run had seen. */
  ghost predicate NewLast(pages: seq<Page>) {
    pages != [] ==> !Repeats(Before(pages), pages[|pages| - 1])
  }

  /** So far every search was in vain, the one on the last page included, which is new. */
  ghost predicate Searching(world: World, t: Trace, searched: seq<Page>, extractions: nat) {
    && |t.recorded| == |t.pages| && searched == PagesSearched(t.pages, t.recorded) && |searched| == extractions
    && InVain(world, searched) && NewLast(t.pages)
  }

  /**
   * Which searches a run made: those of its walk, except on a last page that is a challenge or was seen before.
   * All were in vain but the last one of a success, which found the releases reported.
   */
  ghost predicate Searched(world: World, t: Trace, status: Status, releases: seq<Release>, searched: seq<Page>) {
    var n := |searched| - 1;
    && |t.recorded| == |t.pages|
    && searched == (if t.pages != [] && (status == ChallengeRequired || !NewLast(t.pages))
                    then PagesSearched(Before(t.pages), t.recorded[..|t.pages| - 1])
                    else PagesSearched(t.pages, t.recorded))
    && if status == Success then n >= 0 && InVain(world, searched[..n]) && releases == world.discover(n, searched[n])
       else InVain(world, searched)
  }

  lemma {:induction false} NavigationsGrow(records: seq<Record>, more: seq<Record>)
    ensures Navigations(records) <= Navigations(records + more)
  {
    if more == [] {
      assert records + more == records;
    } else {
      var all := records + more;
      assert all[..|all| - 1] == records + more[..|more| - 1];
      NavigationsGrow(records, more[..|more| - 1]);
    }
  }

  lemma OneMoreCall(world: World, budget: Budget, t: Trace, visited: seq<string>, history: seq<Record>, calls: nat)
    requires Tracks(world, budget, t, visited, history, calls) && calls < budget.geminiCalls
    ensures Tracks(world, budget, t, visited, history, calls + 1)
  {
    forall page, r | ChosenOn(world, calls, page, r) ensures ChosenOn(world, calls + 1, page, r) {
    }
  }

  ghost function Arrived(t: Trace, page: Page): (after: Trace)
    ensures after.pages == t.pages + [page] && after.recorded == t.recorded + [[]]
  {
    Trace(t.pages + [page], t.recorded + [[]])
  }

  lemma Arrives(world: World, budget: Budget, t: Trace, visited: seq<string>, history: seq<Record>, calls: nat,
                page: Page)
    requires Tracks(world, budget, t, visited, history, calls) && AllLeft(t) && |t.pages| < budget.pages
    ensures Tracks(world, budget, Arrived(t, page), visited + [page.url], history, calls)
  {
    hide ChosenOn, Left;
    var after := Arrived(t, page);
    assert after.recorded[..|t.recorded|] == t.recorded;
    assert Flatten(after.recorded) == Flatten(t.recorded) + [];
    assert Urls(after.pages) == Urls(t.pages) + [page.url];
    assert OnPage(world, budget, calls, page, []);
  }

  ghost function Noted(t: Trace, record: Record): (after: Trace)
    requires t.recorded != []
    ensures after.pages == t.pages && |after.recorded| == |t.recorded|
    ensures |after.recorded[|t.recorded| - 1]| == |t.recorded[|t.recorded| - 1]| + 1
  {
    var last := |t.recorded| - 1;
    Trace(t.pages, t.recorded[last := t.recorded[last] + [record]])
  }

  ghost predicate OnlyStays(records: seq<Record>) {
    forall r | r in records :: StaysOnPage(r.action.kind)
  }

  lemma Notes(world: World, budget: Budget, t: Trace, visited: seq<string>, history: seq<Record>, calls: nat,
              record: Record)
    requires Tracks(world, budget, t, visited, history, calls) && t.pages != []
    requires var last := |t.pages| - 1;
             && OnlyStays(t.recorded[last]) && |t.recorded[last]| < budget.actionsPerPage && |history| < budget.actions
             && ChosenOn(world, calls, t.pages[last], record)
    ensures Tracks(world, budget, Noted(t, record), visited, history + [record], calls)
    ensures Navigations(history + [record]) == Navigations(history) + if Navigates(record.action.kind) then 1 else 0
  {
    hide ChosenOn, Walks, Flatten, Navigations;
    NoteFlattens(t.recorded, record);
    NoteWalks(world, budget, calls, t, record);
    OneMoreNavigation(history, record);
  }

  lemma OneMoreNavigation(history: seq<Record>, record: Record)
    ensures Navigations(history + [record]) == Navigations(history) + if Navigates(record.action.kind) then 1 else 0
  {
    assert (history + [record])[..|history|] == history;
  }

  lemma NoteFlattens(recorded: seq<seq<Record>>, record: Record)
    requires recorded != []
    ensures Flatten(recorded[|recorded| - 1 := recorded[|recorded| - 1] + [record]]) == Flatten(recorded) + [record]
  {
    var last := |recorded| - 1;
    assert recorded[last := recorded[last] + [record]][..last] == recorded[..last];
  }

  lemma NoteWalks(world: World, budget: Budget, calls: nat, t: Trace, record: Record)
    requires Walks(world, budget, calls, t) && t.pages != []
    requires
      var last := |t.pages| - 1;
      && OnlyStays(t.recorded[last]) && |t.recorded[last]| < budget.actionsPerPage
      && ChosenOn(world, calls, t.pages[last], record)
    ensures Walks(world, budget, calls, Noted(t, record))
  {
    hide ChosenOn, Left;
    var last, after := |t.pages| - 1, Noted(t, record);
    assert forall k | 0 <= k < last :: after.recorded[k] == t.recorded[k];
    assert OnPage(world, budget, calls, t.pages[last], after.recorded[last]) by {
      assert forall k | 0 <= k < |t.recorded[last]| :: t.recorded[last][k] in t.recorded[last];
    }
  }

  ghost predicate NoAborts(history: seq<Record>) {
    forall r | r in history :: r.action.kind != Abort
  }

  ghost predicate Depths(budget: Budget, history: seq<Record>, depth: nat) {
    depth == Navigations(history) <= budget.navigationDepth
  }

  /** Between two pages: every page so far was left by a browser action. */
  ghost predicate Arriving(world: World, budget: Budget, t: Trace, visited: seq<string>, history: seq<Record>,
                           calls: nat,
                           browserActions: nat, depth: nat)
  {
    && Tracks(world, budget, t, visited, history, calls) && AllLeft(t) && Fresh(world, t.pages)
    && browserActions == |t.pages| && Depths(budget, history, depth) && NoAborts(history)
  }

  /** On the last page, which is new and no challenge. */
  ghost predicate Staying(world: World, budget: Budget, t: Trace, visited: seq<string>, history: seq<Record>,
                          calls: nat,
                          browserActions: nat, depth: nat)
  {
    && Tracks(world, budget, t, visited, history, calls) && Fresh(world, t.pages)
    && |t.pages| == browserActions + 1 && OnlyStays(t.recorded[browserActions])
    && Depths(budget, history, depth) && NoAborts(history)
  }

  function Report(status: Status, page: Option<Page>, visited: seq<string>, history: seq<Record>, calls: nat,
                  browserActions: nat, releases: seq<Release>): PlannerResult
  {
    PlannerResult(status, releases, page, Deduplicated(visited), history, calls, browserActions)
  }

  ghost predicate Concludes(world: World, budget: Budget, t: Trace, r: PlannerResult) {
    Reports(world, budget, t, r) && Ends(world, budget, t, r)
  }

  lemma {:induction false} FlattenGrows(recorded: seq<seq<Record>>, k: nat)
    requires k <= |recorded|
    ensures Navigations(Flatten(recorded[..k])) <= Navigations(Flatten(recorded))
    decreases |recorded| - k
  {
    if k == |recorded| {
      assert recorded[..k] == recorded;
    } else {
      assert recorded[..k + 1][..k] == recorded[..k];
      NavigationsGrow(Flatten(recorded[..k]), recorded[k]);
      FlattenGrows(recorded, k + 1);
    }
  }

  /** The page the loop just looked at ends the run. */
  lemma ArrivalEnds(world: World, budget: Budget, t: Trace, visited: seq<string>, history: seq<Record>, calls: nat,
                    browserActions: nat, depth: nat, page: Page, status: Status)
    requires Arriving(world, budget, t, visited, history, calls, browserActions, depth) && |t.pages| < budget.pages
    requires status == ChallengeRequired <==> Challenged(world, page)
    requires status != ChallengeRequired ==> status == LayoutChanged
    ensures Concludes(world, budget, Arrived(t, page),
                      Report(status, Some(page), visited + [page.url], history, calls, browserActions, []))
  {
    hide Walks, Left, Fresh, AllLeft, Challenged, Flatten, Navigations;
    Arrives(world, budget, t, visited, history, calls, page);
    assert Before(Arrived(t, page).pages) == t.pages;
    assert Arrived(t, page).recorded[..browserActions] == t.recorded;
  }

  /** The page the loop just looked at is one to act on. */
  lemma ArrivalStays(world: World, budget: Budget, t: Trace, visited: seq<string>, history: seq<Record>, calls: nat,
                     browserActions: nat, depth: nat, page: Page)
    requires Arriving(world, budget, t, visited, history, calls, browserActions, depth) && |t.pages| < budget.pages
    requires !Challenged(world, page) && !Repeats(t.pages, page)
    ensures Staying(world, budget, Arrived(t, page), visited + [page.url], history, calls, browserActions, depth)
    ensures |t.pages| == |t.recorded| == browserActions
  {
    hide Walks, Left, Challenged, Flatten, Navigations;
    Arrives(world, budget, t, visited, history, calls, page);
  }

  /** A run may stop on any page, for any reason but a challenge; it succeeds only with a download. */
  lemma StayEnds(world: World, budget: Budget, t: Trace, visited: seq<string>, history: seq<Record>, calls: nat,
                 browserActions: nat, depth: nat, status: Status, releases: seq<Release>)
    requires Staying(world, budget, t, visited, history, calls, browserActions, depth)
    requires status != ChallengeRequired
    requires status == Success ==> HasDownload(releases) && Discovered(world, t.pages[browserActions], releases)
    requires status != Success ==> releases == []
    ensures Concludes(world, budget, t,
                      Report(status, Some(t.pages[browserActions]), visited, history, calls, browserActions, releases))
  {
    hide Walks, Left, Challenged, Flatten, Navigations;
    FlattenGrows(t.recorded, browserActions);
    assert Before(t.pages) == t.pages[..browserActions];
  }

  lemma CallsGrow(world: World, budget: Budget, t: Trace, visited: seq<string>, history: seq<Record>, calls: nat,
                  browserActions: nat, depth: nat, calls': nat)
    requires Staying(world, budget, t, visited, history, calls, browserActions, depth)
    requires calls <= calls' <= calls + 1 && (calls < budget.geminiCalls || calls' == calls)
    ensures Staying(world, budget, t, visited, history, calls', browserActions, depth)
  {
    if calls' > calls {
      OneMoreCall(world, budget, t, visited, history, calls);
    }
  }

  /** An action that keeps the page was recorded. */
  lemma NoteStays(world: World, budget: Budget, t: Trace, visited: seq<string>, history: seq<Record>, calls: nat,
                  browserActions: nat, depth: nat, record: Record)
    requires Staying(world, budget, t, visited, history, calls, browserActions, depth)
    requires |t.recorded[browserActions]| < budget.actionsPerPage && |history| < budget.actions
    requires ChosenOn(world, calls, t.pages[browserActions], record) && StaysOnPage(record.action.kind)
    ensures Staying(world, budget, Noted(t, record), visited, history + [record], calls, browserActions, depth)
  {
    hide Walks, Fresh, Flatten, Navigations, ChosenOn;
    Notes(world, budget, t, visited, history, calls, record);
  }

  /** Stopping here, with this action recorded, is a conclusion with a reason. */
  ghost predicate StopsAfter(world: World, budget: Budget, t: Trace, visited: seq<string>, history: seq<Record>,
                             calls: nat,
                             browserActions: nat, record: Record, status: Status)
    requires |t.pages| == |t.recorded| == browserActions + 1
  {
    && Concludes(world, budget, Noted(t, record),
                 Report(status, Some(t.pages[browserActions]), visited, history + [record], calls, browserActions, []))
    && Explained(world, budget, Noted(t, record), status, history + [record], calls, browserActions)
  }

  /** Any other action was recorded: the run stops, or the browser carries it out and the page is left. */
  lemma NoteLeaves(world: World, budget: Budget, t: Trace, visited: seq<string>, history: seq<Record>, calls: nat,
                   browserActions: nat, depth: nat, record: Record)
    requires Staying(world, budget, t, visited, history, calls, browserActions, depth)
    requires |t.recorded[browserActions]| < budget.actionsPerPage && |history| < budget.actions
    requires ChosenOn(world, calls, t.pages[browserActions], record) && !StaysOnPage(record.action.kind)
    ensures depth <= budget.navigationDepth && record.action.kind != ExtractRelease
    ensures
      var deeper := depth + if Navigates(record.action.kind) then 1 else 0;
      if record.action.kind == Abort then
        StopsAfter(world, budget, t, visited, history, calls, browserActions, record, ManualReview)
      else if deeper > budget.navigationDepth then
        StopsAfter(world, budget, t, visited, history, calls, browserActions, record, LayoutChanged)
      else
        && Arriving(world, budget, Noted(t, record), visited, history + [record], calls, browserActions + 1, deeper)
        && (!world.executes(browserActions) ==>
             StopsAfter(world, budget, t, visited, history, calls, browserActions, record, TemporaryFailure))
  {
    hide ChosenOn, Flatten, Navigations, Challenged, OnPage;
    Notes(world, budget, t, visited, history, calls, record);
    FlattenGrows(t.recorded, browserActions);
    assert Before(t.pages) == t.pages[..browserActions];
    assert Noted(t, record).recorded[..browserActions] == t.recorded[..browserActions];
  }

  /** The page or time budget ran out. */
  lemma BudgetEnds(world: World, budget: Budget, t: Trace, visited: seq<string>, history: seq<Record>, calls: nat,
                   browserActions: nat, depth: nat, status: Status)
    requires Arriving(world, budget, t, visited, history, calls, browserActions, depth)
    requires |t.pages| >= budget.pages || TimeIsUp(world, budget, |t.pages| + 1)
    requires status == if TimeIsUp(world, budget, |t.pages| + 2) then TemporaryFailure else LayoutChanged
    ensures Explained(world, budget, t, status, history, calls, browserActions)
    ensures Concludes(world, budget, t,
                      Report(status, if t.pages == [] then None else Some(t.pages[|t.pages| - 1]), visited, history,
                             calls,
                             browserActions, []))
  {
    hide Walks, Left, Challenged, Flatten, Navigations;
    assert t.recorded[..browserActions] == t.recorded;
  }

  lemma NothingYet(world: World, budget: Budget)
    ensures Arriving(world, budget, Trace([], []), [], [], 0, 0, 0)
  {
    assert Urls([]) == [];
  }

  ghost predicate CountsStates(states: map<string, nat>, pages: seq<Page>) {
    && (forall h | h in states :: states[h] == 1 && exists k | 0 <= k < |pages| :: pages[k].stateHash == h)
    && forall k | 0 <= k < |pages| :: pages[k].stateHash in states
  }

  function Counted(states: map<string, nat>, hash: string): (counted: map<string, nat>)
    ensures hash in counted
  {
    states[hash := (if hash in states then states[hash] else 0) + 1]
  }

  lemma CountOne(states: map<string, nat>, pages: seq<Page>, page: Page)
    requires CountsStates(states, pages)
    ensures Counted(states, page.stateHash)[page.stateHash] > 1 <==> Repeats(pages, page)
    ensures !Repeats(pages, page) ==> CountsStates(Counted(states, page.stateHash), pages + [page])
  {
    assert (pages + [page])[|pages|] == page;
    forall h | h in states ensures exists k | 0 <= k < |pages + [page]| :: (pages + [page])[k].stateHash == h {
      var k :| 0 <= k < |pages| && pages[k].stateHash == h;
      assert (pages + [page])[k].stateHash == h;
    }
  }

  /** A run that ends on arrival has not searched the last page. */
  lemma UnsearchedEnd(world: World, t: Trace, page: Page, searched: seq<Page>, extractions: nat, status: Status)
    requires Searching(world, t, searched, extractions) && status != Success
    requires status == ChallengeRequired || Repeats(t.pages, page)
    ensures Searched(world, Arrived(t, page), status, [], searched)
  {
    var after := Arrived(t, page);
    assert Before(after.pages) == t.pages && after.recorded[..|t.pages|] == t.recorded;
  }

  lemma ArrivalSearches(t: Trace, page: Page)
    requires |t.recorded| == |t.pages|
    ensures PagesSearched(Arrived(t, page).pages, Arrived(t, page).recorded) ==
            PagesSearched(t.pages, t.recorded) + [page]
  {
    var after, earlier := Arrived(t, page), PagesSearched(t.pages, t.recorded);
    assert after.pages[..|t.pages|] == t.pages && after.recorded[..|t.pages|] == t.recorded;
    assert seq(Extractions([]), _ => page) == [];
    assert earlier + [page] + [] == earlier + [page];
  }

  lemma SearchArrives(world: World, t: Trace, page: Page, searched: seq<Page>, extractions: nat)
    requires Searching(world, t, searched, extractions) && !Repeats(t.pages, page)
    ensures var after := Arrived(t, page);
            if HasDownload(world.discover(extractions, page))
            then Searched(world, after, Success, world.discover(extractions, page), searched + [page])
            else Searching(world, after, searched + [page], extractions + 1)
  {
    hide PagesSearched, HasDownload, Repeats;
    HasDownloadIff(world.discover(extractions, page));
    ArrivalSearches(t, page);
    assert Before(Arrived(t, page).pages) == t.pages;
    assert (searched + [page])[..|searched|] == searched;
  }

  lemma OneMoreExtraction(records: seq<Record>, record: Record)
    ensures Extractions(records + [record]) ==
              Extractions(records) + if record.action.kind == ExtractRelease then 1 else 0
  {
    assert (records + [record])[..|records|] == records;
  }

  lemma OneMoreSearch(page: Page, n: nat)
    ensures seq(n + 1, _ => page) == seq(n, _ => page) + [page]
  {
  }

  lemma NoteSearches(t: Trace, record: Record)
    requires |t.recorded| == |t.pages| > 0
    ensures var after := Noted(t, record);
            PagesSearched(after.pages, after.recorded) ==
              PagesSearched(t.pages, t.recorded)
              + if record.action.kind == ExtractRelease then [t.pages[|t.pages| - 1]] else []
  {
    hide Extractions;
    var after, last := Noted(t, record), |t.pages| - 1;
    var page, n := t.pages[last], Extractions(t.recorded[last]);
    OneMoreExtraction(t.recorded[last], record);
    OneMoreSearch(page, n);
    var earlier := PagesSearched(t.pages[..last], t.recorded[..last]);
    assert after.recorded[..last] == t.recorded[..last] && after.recorded[last] == t.recorded[last] + [record];
    assert earlier + [page] + (seq(n, _ => page) + [page]) == earlier + [page] + seq(n, _ => page) + [page];
  }

  lemma SearchNotes(world: World, t: Trace, record: Record, searched: seq<Page>, extractions: nat)
    requires Searching(world, t, searched, extractions) && t.pages != []
    ensures var after, page := Noted(t, record), t.pages[|t.pages| - 1];
            if record.action.kind != ExtractRelease then Searching(world, after, searched, extractions)
               else if HasDownload(world.discover(extractions, page))
               then Searched(world, after, Success, world.discover(extractions, page), searched + [page])
               else Searching(world, after, searched + [page], extractions + 1)
  {
    hide PagesSearched, HasDownload, NewLast;
    HasDownloadIff(world.discover(extractions, t.pages[|t.pages| - 1]));
    NoteSearches(t, record);
    assert searched + [] == searched;
    assert (searched + [t.pages[|t.pages| - 1]])[..|searched|] == searched;
  }

  /** What a page the loop just came to means for the run: an end, or a page to search and act on. */
  lemma Arrival(world: World, budget: Budget, t: Trace, visited: seq<string>, history: seq<Record>, calls: nat,
                browserActions: nat, depth: nat, page: Page, states: map<string, nat>, searched: seq<Page>,
                extractions: nat)
    requires Arriving(world, budget, t, visited, history, calls, browserActions, depth) && |t.pages| < budget.pages
    requires CountsStates(states, t.pages) && Searching(world, t, searched, extractions)
    ensures
      var after, urls, counted := Arrived(t, page), visited + [page.url], Counted(states, page.stateHash);
      var releases := world.discover(extractions, page);
      if Challenged(world, page) then
        && Concludes(world, budget, after,
                     Report(ChallengeRequired, Some(page), urls, history, calls, browserActions, []))
        && Searched(world, after, ChallengeRequired, [], searched)
      else if counted[page.stateHash] > 1 then
        && Concludes(world, budget, after, Report(LayoutChanged, Some(page), urls, history, calls, browserActions, []))
        && Explained(world, budget, after, LayoutChanged, history, calls, browserActions)
        && Searched(world, after, LayoutChanged, [], searched)
      else
        && Staying(world, budget, after, urls, history, calls, browserActions, depth) && |t.pages| == browserActions
        && CountsStates(counted, after.pages)
        && if HasDownload(releases) then
             && Concludes(world, budget, after,
                          Report(Success, Some(page), urls, history, calls, browserActions, releases))
             && Searched(world, after, Success, releases, searched + [page])
           else Searching(world, after, searched + [page], extractions + 1)
  {
    hide Arriving, Staying, Concludes, Explained, Searching, Searched, CountsStates, Counted, Challenged, HasDownload;
    hide Repeats, Arrived;
    CountOne(states, t.pages, page);
    if Challenged(world, page) {
      ArrivalEnds(world, budget, t, visited, history, calls, browserActions, depth, page, ChallengeRequired);
      UnsearchedEnd(world, t, page, searched, extractions, ChallengeRequired);
    } else if Repeats(t.pages, page) {
      ArrivalEnds(world, budget, t, visited, history, calls, browserActions, depth, page, LayoutChanged);
      ArrivingCounts(world, budget, t, visited, history, calls, browserActions, depth);
      RepeatExplains(world, budget, t, page, history, calls);
      UnsearchedEnd(world, t, page, searched, extractions, LayoutChanged);
    } else {
      ArrivalStays(world, budget, t, visited, history, calls, browserActions, depth, page);
      SearchArrives(world, t, page, searched, extractions);
      if HasDownload(world.discover(extractions, page)) {
        assert Discovered(world, page, world.discover(extractions, page));
        StayEnds(world, budget, Arrived(t, page), visited + [page.url], history, calls, browserActions, depth, Success,
                 world.discover(extractions, page));
      }
    }
  }

  lemma ArrivingCounts(world: World, budget: Budget, t: Trace, visited: seq<string>, history: seq<Record>, calls: nat,
                       browserActions: nat, depth: nat)
    requires Arriving(world, budget, t, visited, history, calls, browserActions, depth)
    ensures |t.recorded| == |t.pages| == browserActions
  {
  }

  lemma SearchEnds(world: World, t: Trace, searched: seq<Page>, extractions: nat)
    requires Searching(world, t, searched, extractions)
    ensures Searched(world, t, LayoutChanged, [], searched) && Searched(world, t, ManualReview, [], searched)
    ensures Searched(world, t, TemporaryFailure, [], searched)
  {
  }

  lemma SessionArrives(world: World, t: Trace)
    requires FromSession(world, t.pages)
    ensures FromSession(world, Arrived(t, world.snapshot(|t.pages|)).pages)
  {
  }

  lemma BlockExplains(world: World, budget: Budget, t: Trace, history: seq<Record>, calls: nat, browserActions: nat,
                      status: Status)
    requires |t.pages| == |t.recorded| == browserActions + 1
    requires Blocked(world, budget, t.pages[browserActions], calls, status)
    ensures Explained(world, budget, t, status, history, calls, browserActions)
  {
  }

  lemma SpentExplains(world: World, budget: Budget, t: Trace, history: seq<Record>, calls: nat, browserActions: nat)
    requires |t.pages| == |t.recorded| == browserActions + 1
    requires |history| >= budget.actions || |t.recorded[browserActions]| >= budget.actionsPerPage
    ensures Explained(world, budget, t, LayoutChanged, history, calls, browserActions)
  {
  }

  lemma RepeatExplains(world: World, budget: Budget, t: Trace, page: Page, history: seq<Record>, calls: nat)
    requires Repeats(t.pages, page) && |t.recorded| == |t.pages|
    ensures Explained(world, budget, Arrived(t, page), LayoutChanged, history, calls, |t.pages|)
  {
    assert Before(Arrived(t, page).pages) == t.pages;
  }

  class UnknownSitePlanner {
    const world: World
    const budget: Budget

    constructor (world: World, budget: Budget)
      ensures this.world == world && this.budget == budget
    {
      this.world, this.budget := world, budget;
    }

    /** The action for the page, or the reason to stop; an interpreter that fails has still been called. */
    method Decide(page: Page, calls: nat, hasDownload: bool) returns (calls': nat, choice: Choice)
      requires !hasDownload
      ensures calls <= calls' <= calls + 1
      ensures calls' == calls + 1 <==> NeedsInterpreter(world, page) && calls < budget.geminiCalls
      ensures choice.Chosen? ==> ChosenOn(world, calls', page, Record(page.url, page.stateHash, choice.action))
      ensures choice.Stop? ==> choice.status in {LayoutChanged, TemporaryFailure, ManualReview}
      ensures choice.Stop? ==> Blocked(world, budget, page, calls', choice.status)
    {
      calls' := calls;
      var action := HeuristicAction(world, page);
      if action.None? || (action.value.kind == ExtractRelease && !hasDownload) {
        if calls >= budget.geminiCalls {
          return calls, Stop(LayoutChanged);
        }
        action := world.decide(calls);
        calls' := calls + 1;
        if action.None? {
          return calls', Stop(TemporaryFailure);
        }
      }
      if Unsure(action.value) {
        return calls', Stop(ManualReview);
      }
      if Unavailable(page, action.value) {
        return calls', Stop(LayoutChanged);
      }
      IsChosen(world, calls', page, Record(page.url, page.stateHash, action.value));
      return calls', Chosen(action.value);
    }

    /** The loop: `t` is the walk along which it came to its report, and `searched` the pages it searched on it. */
    method Explore() returns (r: PlannerResult, ghost t: Trace, ghost searched: seq<Page>)
      ensures Concludes(world, budget, t, r) && FromSession(world, t.pages)
      ensures Searched(world, t, r.status, r.releases, searched)
      ensures r.status != Success && r.status != ChallengeRequired ==>
                Explained(world, budget, t, r.status, r.actionHistory, r.geminiCalls, r.browserActions)
    {
      hide Arriving, Staying, Concludes, Blocked, Explained;
      hide FromSession, Searching, Searched, NewLast, PagesSearched, Before, CountsStates, Counted, ChosenOn;
      hide TimeIsUp, StaysOnPage, Navigates, Unsure, Deduplicated, Challenged, HasDownload, Repeats, NeedsInterpreter,
          HeuristicAction, Noted, Arrived;
      var visitedUrls: seq<string>, actionHistory: seq<Record> := [], [];
      var seenStates: map<string, nat> := map[];
      var pages, totalActions, geminiCalls, browserActions, depth, extractions := 0, 0, 0, 0, 0, 0;
      var lastPage: Option<Page> := None;
      t, searched := Trace([], []), [];
      NothingYet(world, budget);
      NothingSearched(world);
      NothingCounted();

      while pages < budget.pages && !TimeIsUp(world, budget, pages + 1)
        invariant Arriving(world, budget, t, visitedUrls, actionHistory, geminiCalls, browserActions, depth)
        invariant pages == |t.pages| == |t.recorded| == browserActions && totalActions == |actionHistory|
        invariant CountsStates(seenStates, t.pages) && FromSession(world, t.pages)
        invariant Searching(world, t, searched, extractions)
        invariant lastPage == if t.pages == [] then None else Some(t.pages[|t.pages| - 1])
      {
        var page := world.snapshot(pages);
        lastPage := Some(page);
        ghost var before := t;
        t := Arrived(before, page);
        SessionArrives(world, before);
        pages := pages + 1;
        Arrival(world, budget, before, visitedUrls, actionHistory, geminiCalls, browserActions, depth, page, seenStates,
                searched, extractions);
        seenStates := Counted(seenStates, page.stateHash);
        visitedUrls := visitedUrls + [page.url];
        if Challenged(world, page) {
          r := Report(ChallengeRequired, Some(page), visitedUrls, actionHistory, geminiCalls, browserActions, []);
          return;
        }
        if seenStates[page.stateHash] > 1 {
          r := Report(LayoutChanged, Some(page), visitedUrls, actionHistory, geminiCalls, browserActions, []);
          return;
        }

        var releases := world.discover(extractions, page);
        searched := searched + [page];
        extractions := extractions + 1;
        if HasDownload(releases) {
          r := Report(Success, Some(page), visitedUrls, actionHistory, geminiCalls, browserActions, releases);
          return;
        }

        var pageActions, left := 0, false;
        while pageActions < budget.actionsPerPage && totalActions < budget.actions
          invariant Staying(world, budget, t, visitedUrls, actionHistory, geminiCalls, browserActions, depth)
          invariant pages == |t.pages| == |t.recorded| == browserActions + 1 && totalActions == |actionHistory|
          invariant pageActions == |t.recorded[browserActions]| && t.pages[browserActions] == page
          invariant CountsStates(seenStates, t.pages) && !HasDownload(releases) && !left
          invariant FromSession(world, t.pages) && Searching(world, t, searched, extractions)
        {
          var calls, choice := Decide(page, geminiCalls, HasDownload(releases));
          CallsGrow(world, budget, t, visitedUrls, actionHistory, geminiCalls, browserActions, depth, calls);
          geminiCalls := calls;
          if choice.Stop? {
            BlockExplains(world, budget, t, actionHistory, geminiCalls, browserActions, choice.status);
            SearchEnds(world, t, searched, extractions);
            StayEnds(world, budget, t, visitedUrls, actionHistory, geminiCalls, browserActions, depth, choice.status,
                     []);
            r := Report(choice.status, Some(page), visitedUrls, actionHistory, geminiCalls, browserActions, []);
            return;
          }
          var action := choice.action;
          var record := Record(page.url, page.stateHash, action);
          ghost var unnoted := t;
          t := Noted(unnoted, record);
          SearchNotes(world, unnoted, record, searched, extractions);
          totalActions := totalActions + 1;
          pageActions := pageActions + 1;
          if StaysOnPage(action.kind) {
            NoteStays(world, budget, unnoted, visitedUrls, actionHistory, geminiCalls, browserActions, depth, record);
            actionHistory := actionHistory + [record];
            if action.kind == ExtractRelease {
              releases := world.discover(extractions, page);
              searched := searched + [page];
              extractions := extractions + 1;
              if HasDownload(releases) {
                StayEnds(world, budget, t, visitedUrls, actionHistory, geminiCalls, browserActions, depth, Success,
                         releases);
                r := Report(Success, Some(page), visitedUrls, actionHistory, geminiCalls, browserActions, releases);
                return;
              }
            }
            continue;
          }
          NoteLeaves(world, budget, unnoted, visitedUrls, actionHistory, geminiCalls, browserActions, depth, record);
          SearchEnds(world, t, searched, extractions);
          actionHistory := actionHistory + [record];
          if action.kind == Abort {
            r := Report(ManualReview, Some(page), visitedUrls, actionHistory, geminiCalls, browserActions, []);
            return;
          }
          if Navigates(action.kind) {
            depth := depth + 1;
            if depth > budget.navigationDepth {
              r := Report(LayoutChanged, Some(page), visitedUrls, actionHistory, geminiCalls, browserActions, []);
              return;
            }
          }
          if !world.executes(browserActions) {
            r := Report(TemporaryFailure, Some(page), visitedUrls, actionHistory, geminiCalls, browserActions, []);
            return;
          }
          browserActions := browserActions + 1;
          left := true;
          break;
        }
        if !left {
          SpentExplains(world, budget, t, actionHistory, geminiCalls, browserActions);
          SearchEnds(world, t, searched, extractions);
          StayEnds(world, budget, t, visitedUrls, actionHistory, geminiCalls, browserActions, depth, LayoutChanged, []);
          r := Report(LayoutChanged, Some(page), visitedUrls, actionHistory, geminiCalls, browserActions, []);
          return;
        }
      }
      var status := if TimeIsUp(world, budget, pages + 2) then TemporaryFailure else LayoutChanged;
      SearchEnds(world, t, searched, extractions);
      BudgetEnds(world, budget, t, visitedUrls, actionHistory, geminiCalls, browserActions, depth, status);
      r := Report(status, lastPage, visitedUrls, actionHistory, geminiCalls, browserActions, []);
    }

    /** Terminates for every session, interpreter, adapter and clock, and reports within every budget. */
    method Run() returns (r: PlannerResult, ghost t: Trace, ghost searched: seq<Page>)
      ensures r.browserActions <= budget.pages && |r.visitedUrls| <= budget.pages && Distinct(r.visitedUrls)
      ensures |r.actionHistory| <= budget.actions && r.geminiCalls <= budget.geminiCalls
      ensures Navigations(r.actionHistory) <= budget.navigationDepth + 1
      ensures forall record | record in r.actionHistory :: NamesElement(world, budget, record)
      ensures r.status == Success <==> exists release | release in r.releases :: release.downloadCandidates != []
      ensures r.status == ChallengeRequired <==>
                && r.finalPage.Some?
                && world.challenge(r.finalPage.value.title + " " + r.finalPage.value.visibleText)
      ensures Concludes(world, budget, t, r) && FromSession(world, t.pages)
      ensures Searched(world, t, r.status, r.releases, searched)
      ensures r.status != Success && r.status != ChallengeRequired ==>
                Explained(world, budget, t, r.status, r.actionHistory, r.geminiCalls, r.browserActions)
    {
      r, t, searched := Explore();
      CountsAreBounded(world, budget, t, r);
      EveryActionNamesElement(world, budget, t, r);
    }
  }

  lemma {:induction false} RecordedSomewhere(recorded: seq<seq<Record>>, record: Record)
    requires record in Flatten(recorded)
    ensures exists k | 0 <= k < |recorded| :: record in recorded[k]
  {
    var last := |recorded| - 1;
    if record in Flatten(recorded[..last]) {
      RecordedSomewhere(recorded[..last], record);
      var k :| 0 <= k < last && record in recorded[..last][k];
      assert record in recorded[k];
    } else {
      assert record in recorded[last];
    }
  }

  /** The action names an element of a page that the session showed at this address and in this state. */
  ghost predicate NamesElement(world: World, budget: Budget, record: Record) {
    record.action.target.Some? && record.action.target.value != "" ==>
      exists n: nat | n < budget.pages ::
          Shown(world, n, record) && record.action.target.value in world.snapshot(n).targets
  }

  predicate Shown(world: World, n: nat, record: Record) {
    world.snapshot(n).url == record.url && world.snapshot(n).stateHash == record.stateHash
  }

  lemma EveryActionNamesElement(world: World, budget: Budget, t: Trace, r: PlannerResult)
    requires Concludes(world, budget, t, r) && FromSession(world, t.pages)
    ensures forall record | record in r.actionHistory :: NamesElement(world, budget, record)
  {
    hide Ends, NeedsInterpreter, HeuristicAction;
    forall record | record in r.actionHistory ensures NamesElement(world, budget, record) {
      RecordedSomewhere(t.recorded, record);
      var k :| 0 <= k < |t.recorded| && record in t.recorded[k];
      assert OnPage(world, budget, r.geminiCalls, t.pages[k], t.recorded[k]);
      assert Shown(world, k, record);
    }
  }

  lemma {:induction false} DeduplicatedIsShorter(urls: seq<string>)
    ensures |Deduplicated(urls)| <= |urls|
  {
    if urls == [] {
    } else {
      DeduplicatedIsShorter(urls[..|urls| - 1]);
    }
  }

  lemma CountsAreBounded(world: World, budget: Budget, t: Trace, r: PlannerResult)
    requires Concludes(world, budget, t, r)
    ensures r.browserActions <= budget.pages && |r.visitedUrls| <= budget.pages && Distinct(r.visitedUrls)
    ensures |r.actionHistory| <= budget.actions && r.geminiCalls <= budget.geminiCalls
    ensures Navigations(r.actionHistory) <= budget.navigationDepth + 1
    ensures r.status == Success <==> exists release | release in r.releases :: release.downloadCandidates != []
    ensures r.status == ChallengeRequired <==>
              r.finalPage.Some? && world.challenge(r.finalPage.value.title + " " + r.finalPage.value.visibleText)
  {
    DeduplicatedIsShorter(Urls(t.pages));
    DeduplicatedKeepsEachOnce(Urls(t.pages));
  }

  lemma NothingSearched(world: World)
    ensures Searching(world, Trace([], []), [], 0) && FromSession(world, [])
  {
  }

  lemma NothingCounted()
    ensures CountsStates(map[], [])
  {
  }

  lemma IsChosen(world: World, calls: nat, page: Page, record: Record)
    requires record.url == page.url && record.stateHash == page.stateHash
    requires record.action.target.Some? && record.action.target.value != "" ==>
              record.action.target.value in page.targets
    requires !Unsure(record.action)
    requires if NeedsInterpreter(world, page) then calls > 0 && world.decide(calls - 1) == Some(record.action)
             else HeuristicAction(world, page) == Some(record.action)
    ensures ChosenOn(world, calls, page, record)
  {
  }
}
