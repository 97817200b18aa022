/** The dashboard's multi-select state: the list of checked ids, its toggle,
    and what the bulk and single download handlers do to it. */
module Selection {
  import opened Seqs
  import opened Catalog
  import opened Api
  import opened Filtering

  function IsNot(id: int): int -> bool {
    (x: int) => x != id
  }

  /** Checking or unchecking a card: a checked id is removed wherever it
      occurs, an unchecked one is appended at the end. */
  function Toggle(selected: seq<int>, id: int): (next: seq<int>)
    ensures id in next <==> id !in selected
    ensures forall x :: x != id ==> (x in next <==> x in selected)
    ensures id !in selected ==> next == selected + [id]
    ensures id in selected ==> IsSubseq(next, selected)
  {
    if id in selected then Filter(IsNot(id), selected) else selected + [id]
  }

  lemma ToggleKeepsNoDups(selected: seq<int>, id: int)
    requires NoDups(selected)
    ensures NoDups(Toggle(selected, id))
  {
    if id in selected {
      FilterKeepsNoDups(IsNot(id), selected);
    }
  }

  /** Removing an id that is absent leaves the list as it was. */
  lemma RemoveAbsent(s: seq<int>, id: int)
    requires id !in s
    ensures Filter(IsNot(id), s) == s
  {
    FilterKeepsAllIff(IsNot(id), s);
  }

  /** Toggling twice restores the same ids. */
  lemma ToggleTwiceSameMembers(selected: seq<int>, id: int)
    ensures forall x :: x in Toggle(Toggle(selected, id), id) <==> x in selected
  {
  }

  /** Toggling an unchecked id twice restores the list exactly. */
  lemma ToggleTwiceRestoresAbsent(selected: seq<int>, id: int)
    requires id !in selected
    ensures Toggle(Toggle(selected, id), id) == selected
  {
    FilterConcat(IsNot(id), selected, [id]);
    RemoveAbsent(selected, id);
  }

  /** In a list without duplicates, removing its last element and appending
      it again gives back the list. */
  lemma RemoveLastThenAppend(s: seq<int>, id: int)
    requires NoDups(s) && s != [] && s[|s| - 1] == id
    ensures Filter(IsNot(id), s) + [id] == s
  {
    var front := s[..|s| - 1];
    assert id !in front by {
      forall k | 0 <= k < |front| ensures front[k] != id {
        assert front[k] == s[k];
      }
    }
    assert s == front + [id];
    FilterDropsRejectedLast(IsNot(id), front, id);
    RemoveAbsent(front, id);
  }

  /** Toggling a checked id twice moves it to the end; for a list without
      duplicates that restores the list exactly when the id was already last. */
  lemma ToggleTwicePresent(selected: seq<int>, id: int)
    requires id in selected
    ensures Toggle(Toggle(selected, id), id) == Filter(IsNot(id), selected) + [id]
    ensures NoDups(selected) ==>
              (Toggle(Toggle(selected, id), id) == selected <==> selected[|selected| - 1] == id)
  {
    var once := Toggle(selected, id);
    assert id !in once;
    var twice := Toggle(once, id);
    assert twice == once + [id];
    if NoDups(selected) && selected[|selected| - 1] == id {
      RemoveLastThenAppend(selected, id);
    }
    if twice == selected {
      assert selected[|selected| - 1] == twice[|twice| - 1];
    }
  }

  /** Ids that name catalog records keep doing so after a toggle by a catalog id. */
  lemma ToggleStaysInCatalog(catalog: seq<Software>, selected: seq<int>, id: int)
    requires forall x :: x in selected ==> HasId(catalog, x)
    requires HasId(catalog, id)
    ensures forall x :: x in Toggle(selected, id) ==> HasId(catalog, x)
  {
  }

  datatype Option<T> = None | Some(value: T)

  /** What a download handler does: the id list it sends to the service (if
      any), the URLs it opens in order, and the selection afterwards. */
  datatype HandlerEffect = HandlerEffect(request: Option<seq<int>>, openedUrls: seq<string>, selection: seq<int>)

  /** A download service: answers an id list with links or a rejection. */
  type Service = seq<int> -> Reply<seq<DownloadLink>>

  function Urls(links: seq<DownloadLink>): (urls: seq<string>)
    ensures |urls| == |links|
    ensures forall i :: 0 <= i < |links| ==> urls[i] == links[i].downloadUrl
  {
    seq(|links|, i requires 0 <= i < |links| => links[i].downloadUrl)
  }

  /** The bulk handler, run to completion with no other event in between:
      nothing at all for an empty selection; otherwise one request for the
      whole selection, then on success every returned URL is opened in order
      and the selection cleared, and on rejection nothing is opened and the
      selection is kept. */
  function DownloadSelected(selection: seq<int>, service: Service): (e: HandlerEffect)
    ensures selection == [] ==> e == HandlerEffect(None, [], [])
    ensures selection != [] ==> e.request == Some(selection)
    ensures e.selection == [] <==> selection == [] || service(selection).Ok?
    ensures e.selection != [] ==> e.selection == selection
    ensures e.openedUrls != [] ==> service(selection).Ok?
    ensures selection != [] && service(selection).Ok? ==> e.openedUrls == Urls(service(selection).value)
  {
    if selection == [] then HandlerEffect(None, [], selection)
    else match service(selection)
      case Ok(links) => HandlerEffect(Some(selection), Urls(links), [])
      case Err(_) => HandlerEffect(Some(selection), [], selection)
  }

  /** The single-card handler: a one-id request and, on success, the first
      returned URL opened. An empty answer leaves no first link to open; the
      handler treats that failure like a rejection. The selection is never
      touched. */
  function DownloadSingle(selection: seq<int>, item: Software, service: Service): (e: HandlerEffect)
    ensures e.selection == selection
    ensures e.request == Some([item.id])
    ensures e.openedUrls != [] <==> service([item.id]).Ok? && service([item.id]).value != []
    ensures e.openedUrls != [] ==> e.openedUrls == [service([item.id]).value[0].downloadUrl]
  {
    match service([item.id])
    case Ok(links) =>
      if links != [] then HandlerEffect(Some([item.id]), [links[0].downloadUrl], selection)
      else HandlerEffect(Some([item.id]), [], selection)
    case Err(_) => HandlerEffect(Some([item.id]), [], selection)
  }

  /** The mock service, which never rejects. */
  function MockService(ids: seq<int>): Reply<seq<DownloadLink>> {
    Ok(Download(ids))
  }

  /** The URLs of a download answer are the download URLs of exactly the
      requested records of the catalog. */
  lemma UrlsOfDownload(catalog: seq<Software>, ids: seq<int>)
    ensures forall u :: u in Urls(DownloadFrom(catalog, ids)) <==>
              exists sw :: sw in catalog && sw.id in ids && u == sw.downloadUrl
  {
    var links := DownloadFrom(catalog, ids);
    var urls := Urls(links);
    forall u ensures u in urls <==> exists sw :: sw in catalog && sw.id in ids && u == sw.downloadUrl {
      if u in urls {
        var k :| 0 <= k < |urls| && urls[k] == u;
        var sw :| sw in catalog && sw.id in ids && links[k] == ToLink(sw);
        assert u == sw.downloadUrl;
      }
      if exists sw :: sw in catalog && sw.id in ids && u == sw.downloadUrl {
        var sw :| sw in catalog && sw.id in ids && u == sw.downloadUrl;
        assert ToLink(sw) in links;
        var k :| 0 <= k < |links| && links[k] == ToLink(sw);
        assert urls[k] == u;
      }
    }
  }

  /** Against the mock service a non-empty selection is always cleared, and
      the opened URLs are the download URLs of exactly the selected catalog
      records. */
  lemma DownloadSelectedWithMock(selection: seq<int>)
    requires selection != []
    ensures DownloadSelected(selection, MockService).selection == []
    ensures forall u :: u in DownloadSelected(selection, MockService).openedUrls <==>
              exists sw :: sw in SoftwareData && sw.id in selection && u == sw.downloadUrl
  {
    assert DownloadSelected(selection, MockService).openedUrls == Urls(DownloadFrom(SoftwareData, selection));
    UrlsOfDownload(SoftwareData, selection);
  }

  /** Against the mock service a catalog card's download opens exactly that
      record's URL and leaves the selection alone. */
  lemma DownloadSingleWithMock(selection: seq<int>, item: Software)
    requires item in SoftwareData
    ensures DownloadSingle(selection, item, MockService) == HandlerEffect(Some([item.id]), [item.downloadUrl], selection)
  {
    CatalogShape();
    DownloadOneRecord(SoftwareData, item);
  }

  /** The dashboard's state: the loaded catalog, the search box, the active
      tab, the checked ids, and the bulk requests sent but not yet answered
      (the handler awaits the service, and the page stays usable meanwhile). */
  datatype Dashboard = Dashboard(
    software: seq<Software>,
    searchTerm: string,
    category: string,
    selection: seq<int>,
    pending: seq<seq<int>>)

  /** A user action on the dashboard, or a service answer arriving.
      `Check(k)` ticks the k-th card of the current view. `ClickDownloadAll`
      sends the current selection; `BulkAnswered(k, service)` delivers the
      answer to the k-th pending bulk request, in any order. The single-card
      download carries the service's behaviour. */
  datatype Event =
    | TypeSearch(term: string)
    | PickTab(tab: string)
    | Check(k: nat)
    | ClickDownloadAll
    | BulkAnswered(k: nat, service: Service)
    | DownloadCard(k: nat, service: Service)

  function View(d: Dashboard): seq<Software> {
    FilterSoftware(d.software, d.searchTerm, d.category)
  }

  /** `s` without its k-th element. */
  function RemoveAt<T>(s: seq<T>, k: nat): (r: seq<T>)
    requires k < |s|
    ensures |r| == |s| - 1
    ensures forall i :: 0 <= i < k ==> r[i] == s[i]
    ensures forall i :: k <= i < |r| ==> r[i] == s[i + 1]
  {
    s[..k] + s[k + 1..]
  }

  /** An answered bulk request clears the selection on success, whatever it
      holds by then, and leaves it alone on rejection. */
  function Step(d: Dashboard, ev: Event): (d': Dashboard)
    ensures d'.software == d.software
    ensures ev.Check? || ev.BulkAnswered? || d'.selection == d.selection
    ensures ev.BulkAnswered? && ev.k < |d.pending| && ev.service(d.pending[ev.k]).Ok? ==> d'.selection == []
    ensures ev.ClickDownloadAll? && d.selection != [] ==> d'.pending == d.pending + [d.selection]
    ensures ev.ClickDownloadAll? && d.selection == [] ==> d' == d
    ensures ev.Check? && ev.k < |View(d)| ==> d'.selection == Toggle(d.selection, View(d)[ev.k].id)
    ensures ev.BulkAnswered? && ev.k < |d.pending| ==> d'.pending == RemoveAt(d.pending, ev.k)
    ensures ev.BulkAnswered? && ev.k < |d.pending| && ev.service(d.pending[ev.k]).Err? ==> d'.selection == d.selection
    ensures !ev.ClickDownloadAll? && !ev.BulkAnswered? ==> d'.pending == d.pending
    ensures d'.searchTerm == (if ev.TypeSearch? then ev.term else d.searchTerm)
    ensures d'.category == (if ev.PickTab? then ev.tab else d.category)
    ensures (ev.Check? && ev.k >= |View(d)|) || (ev.BulkAnswered? && ev.k >= |d.pending|) ==> d' == d
  {
    match ev
    case TypeSearch(term) => d.(searchTerm := term)
    case PickTab(tab) => d.(category := tab)
    case Check(k) =>
      if k < |View(d)| then d.(selection := Toggle(d.selection, View(d)[k].id)) else d
    case ClickDownloadAll =>
      if d.selection == [] then d else d.(pending := d.pending + [d.selection])
    case BulkAnswered(k, service) =>
      if k < |d.pending| then
        var answered := d.(pending := RemoveAt(d.pending, k));
        if service(d.pending[k]).Ok? then answered.(selection := []) else answered
      else d
    case DownloadCard(k, service) =>
      if k < |View(d)| then d.(selection := DownloadSingle(d.selection, View(d)[k], service).selection) else d
  }

  /** With no other event in between, clicking the bulk button and receiving
      the answer has the effect `DownloadSelected` describes. */
  lemma ClickThenAnswerIsDownloadSelected(d: Dashboard, service: Service)
    requires d.pending == []
    ensures var sent := Step(d, ClickDownloadAll);
            var done := if d.selection == [] then sent else Step(sent, BulkAnswered(0, service));
            done.selection == DownloadSelected(d.selection, service).selection && done.pending == []
  {
  }

  /** A card checked while a bulk request is on its way is not part of that
      request, yet a successful answer clears it together with the rest: the
      id ends up neither downloaded nor selected. */
  lemma CheckWhilePendingIsCleared(d: Dashboard, k: nat, service: Service)
    requires d.pending == [] && d.selection != []
    requires k < |View(d)| && View(d)[k].id !in d.selection
    requires service(d.selection).Ok?
    ensures var sent := Step(d, ClickDownloadAll);
            var checked := Step(sent, Check(k));
            var answered := Step(checked, BulkAnswered(0, service));
            sent.pending == [d.selection]
            && View(d)[k].id in checked.selection
            && View(d)[k].id !in sent.pending[0]
            && answered.selection == [] && answered.pending == []
  {
    var sent := Step(d, ClickDownloadAll);
    assert View(sent) == View(d);
  }

  /** The selection holds no id twice and only ids of loaded records. */
  predicate SelectionValid(d: Dashboard) {
    NoDups(d.selection) && forall x :: x in d.selection ==> HasId(d.software, x)
  }

  /** Every user action keeps the selection valid. */
  lemma StepKeepsSelectionValid(d: Dashboard, ev: Event)
    requires SelectionValid(d)
    ensures SelectionValid(Step(d, ev))
  {
    match ev
    case Check(k) =>
      if k < |View(d)| {
        var sw := View(d)[k];
        var j :| 0 <= j < |d.software| && d.software[j] == sw;
        assert HasId(d.software, sw.id);
        ToggleKeepsNoDups(d.selection, sw.id);
        ToggleStaysInCatalog(d.software, d.selection, sw.id);
      }
    case _ =>
  }
}
