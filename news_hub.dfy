/** The NewsHub panel: the values it derives from its `news` and `compact`
    props and its one piece of state, `isExpanded` (the high-impact count,
    the display limit, the shown prefix, whether more items exist, and the
    toggle button), and the toggle that flips that state. */
module NewsHubComponent {
  import opened Optional

  /** A news item, reduced to the fields the panel reads. */
  datatype NewsItem = NewsItem(id: string, impact: string)

  predicate IsHigh(item: NewsItem) {
    item.impact == "HIGH"
  }

  /** The positions of the high-impact items. */
  ghost function HighPositions(news: seq<NewsItem>): set<nat> {
    set i: nat | i < |news| && IsHigh(news[i])
  }

  /** Adding an item at the end adds one high-impact position exactly when
      that item has high impact. */
  lemma HighPositionsOfLonger(news: seq<NewsItem>)
    requires news != []
    ensures |HighPositions(news)| == |HighPositions(news[..|news| - 1])| + (if IsHigh(news[|news| - 1]) then 1 else 0)
  {
    var n := |news| - 1;
    var init := news[..n];
    assert forall i :: 0 <= i < n ==> news[i] == init[i];
    if IsHigh(news[n]) {
      assert HighPositions(news) == HighPositions(init) + {n};
    } else {
      assert HighPositions(news) == HighPositions(init);
    }
  }

  /** `news.filter((n) => n.impact === "HIGH")`, written from the back: it
      keeps only high-impact items of the list, each at most as often as
      the list holds it, one per high-impact position; so its items are
      exactly the high-impact items, counted with multiplicity. */
  function HighItems(news: seq<NewsItem>): (r: seq<NewsItem>)
    ensures forall x :: x in r ==> IsHigh(x) && x in news
    ensures |r| == |HighPositions(news)| <= |news|
    ensures multiset(r) <= multiset(news)
  {
    if news == [] then []
    else
      var n := |news| - 1;
      assert news == news[..n] + [news[n]];
      HighPositionsOfLonger(news);
      HighItems(news[..n]) + (if IsHigh(news[n]) then [news[n]] else [])
  }

  /** `highCount`: the number of items whose impact is "HIGH", so it lies
      between 0 and the number of items. */
  function HighCount(news: seq<NewsItem>): (c: nat)
    ensures c == |HighPositions(news)| <= |news|
  {
    |HighItems(news)|
  }

  /** The "N HIGH" badge shows exactly when some item has high impact. */
  lemma HighBadgeShownIffSomeHigh(news: seq<NewsItem>)
    ensures HighCount(news) > 0 <==> exists i :: 0 <= i < |news| && IsHigh(news[i])
  {
    if i :| 0 <= i < |news| && IsHigh(news[i]) {
      assert i in HighPositions(news);
    }
    if HighCount(news) > 0 {
      var i :| i in HighPositions(news);
    }
  }

  /** How many items the panel shows in compact mode before expanding. */
  const CompactLimit: nat := 4

  /** `displayLimit`: the limit hides items only while the panel is
      compact and collapsed, and then it is four; otherwise it is the
      length of the list. */
  function DisplayLimit(count: nat, compact: bool, isExpanded: bool): (limit: nat)
    ensures limit != count ==> compact && !isExpanded && limit == CompactLimit
    ensures compact && !isExpanded ==> limit == CompactLimit
  {
    if compact && !isExpanded then CompactLimit else count
  }

  /** `news.slice(0, limit)`: the first `limit` items, or all of them when
      there are fewer. */
  function Slice(news: seq<NewsItem>, limit: nat): (r: seq<NewsItem>)
    ensures |r| == if limit < |news| then limit else |news|
    ensures r <= news
  {
    if limit < |news| then news[..limit] else news
  }

  /** `displayedNews`: the first min(displayLimit, |news|) items, in their
      original order. */
  function DisplayedNews(news: seq<NewsItem>, compact: bool, isExpanded: bool): (shown: seq<NewsItem>)
    ensures var limit := DisplayLimit(|news|, compact, isExpanded);
            && |shown| == (if limit < |news| then limit else |news|)
            && shown == news[..|shown|]
  {
    Slice(news, DisplayLimit(|news|, compact, isExpanded))
  }

  /** `hasMore`: true exactly when the panel is compact, not expanded, and
      holds more than four items. */
  function HasMore(news: seq<NewsItem>, compact: bool, isExpanded: bool): (b: bool)
    ensures b <==> compact && !isExpanded && |news| > CompactLimit
  {
    |news| > DisplayLimit(|news|, compact, isExpanded)
  }

  /** In non-compact mode, or once expanded, every item is shown and there
      is nothing more. */
  lemma NotCollapsedShowsAll(news: seq<NewsItem>, compact: bool, isExpanded: bool)
    requires !compact || isExpanded
    ensures DisplayedNews(news, compact, isExpanded) == news
    ensures !HasMore(news, compact, isExpanded)
  {
  }

  /** The label of the toggle button. */
  datatype ButtonLabel = ShowLess | SeeMore(remaining: int)

  /** The toggle button (lines 53-69): rendered only when not loading,
      compact and with more items to show, labelled "Show Less" when
      expanded and "See More (n more)" otherwise. It exists exactly while
      the panel is loaded, compact, collapsed and holds more than four
      items, so "Show Less" is never rendered; the count a rendered button
      announces is positive and is the number of hidden items. */
  function ToggleButton(news: seq<NewsItem>, compact: bool, isExpanded: bool, isLoading: bool): (b: Option<ButtonLabel>)
    ensures b.Some? <==> !isLoading && compact && !isExpanded && |news| > CompactLimit
    ensures b != Some(ShowLess)
    ensures b.Some? ==> b.value.remaining > 0
                        && b.value.remaining == |news| - |DisplayedNews(news, compact, isExpanded)|
  {
    if !isLoading && compact && HasMore(news, compact, isExpanded) then
      if isExpanded then Some(ShowLess)
      else Some(SeeMore(|news| - DisplayLimit(|news|, compact, isExpanded)))
    else None
  }

  /** The mounted panel: its props and its `isExpanded` state. */
  class NewsHub {
    const news: seq<NewsItem>
    const compact: bool
    var isExpanded: bool

    /** Mounting: `useState(false)`. */
    constructor (news: seq<NewsItem>, compact: bool)
      ensures this.news == news && this.compact == compact && !isExpanded
    {
      this.news := news;
      this.compact := compact;
      isExpanded := false;
    }

    function Displayed(): seq<NewsItem>
      reads this
    {
      DisplayedNews(news, compact, isExpanded)
    }

    function Button(isLoading: bool): Option<ButtonLabel>
      reads this
    {
      ToggleButton(news, compact, isExpanded, isLoading)
    }

    /** `setIsExpanded(!isExpanded)`: flips the state. The props are
        constant fields, so nothing else can change. */
    method Toggle()
      modifies this
      ensures isExpanded == !old(isExpanded)
    {
      isExpanded := !isExpanded;
    }

    /** A click on the rendered button. The button only exists while
        collapsed, so a click always expands the panel, shows every item,
        and leaves no button to click again. */
    method ClickButton(isLoading: bool)
      requires Button(isLoading).Some?
      modifies this
      ensures old(!isExpanded) && isExpanded
      ensures Displayed() == news
      ensures forall loading :: Button(loading).None?
    {
      Toggle();
      NotCollapsedShowsAll(news, compact, isExpanded);
    }
  }
}
