/** The "show more" / "collapse" paging of the news and threat-intel lists:
    a list shows its first few items, and a button toggles between those and
    the whole list, telling how many items are still hidden. */
module Paging {
  import opened Text

  const ArticlesInitial := 6
  const CisaInitial := 8
  const OtxInitial := 5

  /** What the button shows: whether the whole list is open, and how many
      items are still hidden. */
  datatype MoreButton = MoreButton(expanded: bool, remaining: nat)

  /** The button for a list of `total` items with `count` requested: the
      shown and the hidden items add up to the list, and the list is open
      exactly when nothing is hidden. */
  function ButtonFor(count: nat, total: nat): (b: MoreButton)
    ensures b.remaining <= total
    ensures Min(count, total) + b.remaining == total
    ensures b.expanded <==> b.remaining == 0
    ensures b.expanded <==> count >= total
  {
    MoreButton(count >= total, total - Min(count, total))
  }

  /** The count a click asks for: back to the first items when everything is
      shown, otherwise the whole list. */
  function NextCount(showing: nat, initialCount: nat, total: nat): (next: nat)
    ensures next == initialCount || next == total
    ensures next == initialCount <==> showing >= total || initialCount == total
  {
    if showing >= total then initialCount else total
  }

  /** Clicking twice comes back to where it started, once the list is longer
      than its first page and shows either the first page or everything. */
  lemma ToggleTwice(showing: nat, initialCount: nat, total: nat)
    requires initialCount < total
    requires showing == initialCount || showing == total
    ensures NextCount(NextCount(showing, initialCount, total), initialCount, total) == showing
    ensures NextCount(showing, initialCount, total) != showing
  {
  }

  /** After a click on a list longer than its first page, the button flips. */
  lemma ClickFlipsButton(showing: nat, initialCount: nat, total: nat)
    requires initialCount < total
    ensures ButtonFor(NextCount(showing, initialCount, total), total).expanded == !ButtonFor(showing, total).expanded
  {
  }

  /** The news list decides from the items it shows (`min(count, length)`),
      the threat-intel list from the count itself; both give the same button,
      and the news click asks for the same count as the threat-intel one. */
  lemma NewsAndThreatIntelAgree(count: nat, total: nat)
    ensures var shown := Min(count, total);
      MoreButton(shown >= total, total - shown) == ButtonFor(count, total)
    ensures (if ButtonFor(count, total).expanded then ArticlesInitial else total) ==
      NextCount(count, ArticlesInitial, total)
  {
  }

  /** The "show more" handler of one threat-intel column
      (`makeThreatIntelMoreHandler`). */
  class MoreHandler {
    const total: nat
    const initialCount: nat
    var showing: nat

    constructor (total: nat, initialCount: nat)
      ensures this.total == total && this.initialCount == initialCount
      ensures showing == initialCount
    {
      this.total := total;
      this.initialCount := initialCount;
      showing := initialCount;
    }

    /** The column gets a button only when it has more than its first page. */
    predicate HasButton()
      reads this
    {
      total > initialCount
    }

    /** `render(count)`: remembers the count and gives the number of items
        drawn. */
    method Render(count: nat) returns (shown: nat)
      modifies this
      ensures showing == count
      ensures shown == Min(count, total) && shown <= total
    {
      showing := count;
      shown := Min(count, total);
    }

    /** The first drawing of the column, with its button when it has one. */
    method InitialView() returns (shown: nat, button: Option<MoreButton>)
      modifies this
      ensures showing == old(showing)
      ensures shown == Min(showing, total)
      ensures button.Some? <==> HasButton()
      ensures button.Some? ==> button.value == ButtonFor(showing, total)
    {
      shown := Render(showing);
      button := if total > initialCount then Some(ButtonFor(showing, total)) else None;
    }

    /** `onClick`: toggles between the first page and the whole column and
        redraws the button. */
    method OnClick() returns (shown: nat, button: MoreButton)
      modifies this
      ensures showing == NextCount(old(showing), initialCount, total)
      ensures shown == Min(showing, total)
      ensures button == ButtonFor(showing, total)
    {
      var next := if showing >= total then initialCount else total;
      shown := Render(next);
      var isAll := next >= total;
      var remaining := total - Min(next, total);
      button := MoreButton(isAll, remaining);
    }
  }

  /** The two threat-intel columns: CISA advisories with a first page of
      eight, OTX pulses with a first page of five, each with its own count. */
  method ThreatIntelColumns(cisaTotal: nat, otxTotal: nat) returns (cisa: MoreHandler, otx: MoreHandler)
    ensures fresh(cisa) && fresh(otx) && cisa != otx
    ensures cisa.total == cisaTotal && cisa.initialCount == CisaInitial && cisa.showing == CisaInitial
    ensures otx.total == otxTotal && otx.initialCount == OtxInitial && otx.showing == OtxInitial
    ensures cisa.HasButton() <==> cisaTotal > CisaInitial
    ensures otx.HasButton() <==> otxTotal > OtxInitial
  {
    cisa := new MoreHandler(cisaTotal, CisaInitial);
    otx := new MoreHandler(otxTotal, OtxInitial);
  }

  /** A click on one column leaves the other column's count as it was. */
  method ClickOneColumn(clicked: MoreHandler, other: MoreHandler) returns (shown: nat, button: MoreButton)
    requires clicked != other
    modifies clicked
    ensures clicked.showing == NextCount(old(clicked.showing), clicked.initialCount, clicked.total)
    ensures other.showing == old(other.showing)
    ensures button == ButtonFor(clicked.showing, clicked.total)
  {
    shown, button := clicked.OnClick();
  }

  /** The security-news list (`renderNews`): the count shown, the items drawn
      and the button, which remembers whether it was drawn for the open list. */
  class NewsList {
    const total: nat
    var showing: nat
    var shown: nat
    var button: Option<MoreButton>

    ghost predicate Valid()
      reads this
    {
      && shown == Min(showing, total)
      && (button.Some? <==> total > ArticlesInitial)
      && (button.Some? ==> button.value == ButtonFor(showing, total))
    }

    /** The first drawing, with the first six articles. */
    constructor (total: nat)
      ensures Valid()
      ensures this.total == total && showing == ArticlesInitial
    {
      this.total := total;
      showing := ArticlesInitial;
      shown := Min(ArticlesInitial, total);
      button := if total > ArticlesInitial then Some(ButtonFor(ArticlesInitial, total)) else None;
    }

    /** `renderNews(list, count)`. */
    method RenderNews(count: nat)
      modifies this
      ensures Valid()
      ensures showing == count
    {
      showing := count;
      var countToShow := Min(count, total);
      shown := countToShow;
      if total > ArticlesInitial {
        var isAll := countToShow >= total;
        var remaining := total - countToShow;
        button := Some(MoreButton(isAll, remaining));
      } else {
        button := None;
      }
    }

    /** A click on the button: back to six articles when the button was drawn
        for the open list, otherwise the whole list. Without a button there is
        nothing to click. */
    method Click()
      requires Valid()
      modifies this
      ensures Valid()
      ensures old(button).Some? ==>
        showing == (if old(button).value.expanded then ArticlesInitial else total)
      ensures old(button).Some? ==> showing == NextCount(old(showing), ArticlesInitial, total)
      ensures old(button).None? ==> showing == old(showing)
    {
      if button.Some? {
        RenderNews(if button.value.expanded then ArticlesInitial else total);
      }
    }
  }
}
