/** Rendering and filtering as data (script.js): a container's children are
    a sequence of elements, either the one placeholder paragraph or one card
    per post, and a card's inline style is what `filterPosts` leaves behind. */
module Render {
  import opened Posts

  /** The inline style properties `filterPosts` writes on a card. */
  datatype Style = Style(display: string, opacity: string, transform: string)

  /** A freshly created card carries no inline style. */
  const Unstyled: Style := Style("", "", "")
  /** The settled style of a card that matches the filter. */
  const Shown: Style := Style("block", "1", "translateY(0)")
  /** The settled style of a card that does not match the filter. */
  const Hidden: Style := Style("none", "0", "translateY(20px)")

  /** A card shows unless its inline style removes it from layout or makes
      it fully transparent; a card with no inline style shows. */
  predicate IsVisible(s: Style) {
    s.display != "none" && s.opacity != "0"
  }

  /** What a post card shows: its `data-type` attribute, the capitalized type
      label, the text fields, and whether the author name is an author link
      (carrying `data-author`). */
  datatype Card = Card(
    dataType: string,
    typeLabel: string,
    title: string,
    author: string,
    date: string,
    content: string,
    authorLink: bool)

  /** What a click lands on: an author-link span, carrying its
      `data-author` attribute, or anything else. A card built with
      `authorLink` holds such a span; its `data-author` equals the card's
      author when the name contains no `"` or `&`, since the markup does
      not escape it. */
  datatype ClickTarget = AuthorLink(dataAuthor: string) | OtherTarget

  /** One child of a posts container. */
  datatype Element = Placeholder(message: string) | PostCard(card: Card, style: Style)

  const NoPostsYet: string := "No posts yet. Be the first to share!"
  const NoPostsForAuthor: string := "No posts found for this author."

  /** `createPostElement(post)`. The definition inside the page-load closure
      has no author link; the top-level one has. */
  function CardOf(p: Post, authorLink: bool): (c: Card)
    ensures c.dataType == p.postType
    ensures |c.typeLabel| == |p.postType|
    ensures c.title == p.title && c.author == p.author && c.date == p.date && c.content == p.content
    ensures c.authorLink == authorLink
  {
    Card(p.postType, Capitalize(p.postType), p.title, p.author, p.date, p.content, authorLink)
  }

  /** One unstyled card per post, in sequence order. */
  function Cards(ps: seq<Post>, authorLink: bool): (r: seq<Element>)
    ensures |r| == |ps|
    ensures forall i :: 0 <= i < |ps| ==> r[i] == PostCard(CardOf(ps[i], authorLink), Unstyled)
  {
    if ps == [] then [] else [PostCard(CardOf(ps[0], authorLink), Unstyled)] + Cards(ps[1..], authorLink)
  }

  /** What a render leaves in its container: the placeholder alone when there
      are no posts, the cards otherwise. */
  function Listing(ps: seq<Post>, emptyMessage: string, authorLink: bool): (r: seq<Element>)
    ensures |r| >= 1
    ensures r[0].Placeholder? <==> ps == []
    ensures ps == [] ==> r[0].message == emptyMessage
  {
    if |ps| == 0 then [Placeholder(emptyMessage)] else Cards(ps, authorLink)
  }

  function CardCount(els: seq<Element>): nat {
    if els == [] then 0 else (if els[0].PostCard? then 1 else 0) + CardCount(els[1..])
  }

  function PlaceholderCount(els: seq<Element>): nat {
    if els == [] then 0 else (if els[0].Placeholder? then 1 else 0) + PlaceholderCount(els[1..])
  }

  /** Cards contains only cards: as many as there are posts, no placeholder. */
  lemma {:induction false} CardsCount(ps: seq<Post>, authorLink: bool)
    ensures CardCount(Cards(ps, authorLink)) == |ps|
    ensures PlaceholderCount(Cards(ps, authorLink)) == 0
  {
    if ps != [] {
      var r := Cards(ps, authorLink);
      assert r[1..] == Cards(ps[1..], authorLink);
      CardsCount(ps[1..], authorLink);
    }
  }

  /** An empty store renders exactly one placeholder and no card; otherwise
      there is one card per post and no placeholder, and card i carries the
      type of post i as its `data-type` and the capitalized type as its
      label. */
  lemma ListingShape(ps: seq<Post>, emptyMessage: string, authorLink: bool)
    ensures PlaceholderCount(Listing(ps, emptyMessage, authorLink)) == (if ps == [] then 1 else 0)
    ensures CardCount(Listing(ps, emptyMessage, authorLink)) == |ps|
    ensures ps != [] ==> |Listing(ps, emptyMessage, authorLink)| == |ps|
    ensures forall i :: 0 <= i < |ps| ==>
      Listing(ps, emptyMessage, authorLink)[i].PostCard? &&
      Listing(ps, emptyMessage, authorLink)[i].card.dataType == ps[i].postType &&
      Listing(ps, emptyMessage, authorLink)[i].card.typeLabel == Capitalize(ps[i].postType)
  {
    if ps == [] {
      var r := Listing(ps, emptyMessage, authorLink);
      assert r[1..] == [];
    } else {
      CardsCount(ps, authorLink);
    }
  }

  /** The `forEach` that appends one card per post to a container. */
  method RenderCards(ps: seq<Post>, authorLink: bool) returns (els: seq<Element>)
    ensures els == Cards(ps, authorLink)
  {
    els := [];
    for i := 0 to |ps|
      invariant |els| == i
      invariant forall j :: 0 <= j < i ==> els[j] == PostCard(CardOf(ps[j], authorLink), Unstyled)
    {
      els := els + [PostCard(CardOf(ps[i], authorLink), Unstyled)];
    }
  }

  /** The condition of `filterPosts`: the filter is "all" or names the card's
      `data-type`. */
  predicate Matches(filter: string, dataType: string) {
    filter == "all" || dataType == filter
  }

  /** The style a card settles into once the filter's timers have run. */
  function FilterStyle(dataType: string, filter: string): (s: Style)
    ensures IsVisible(s) <==> Matches(filter, dataType)
    ensures Matches(filter, dataType) ==> s.display == "block" && s.opacity == "1"
    ensures !Matches(filter, dataType) ==> s.display == "none" && s.opacity == "0"
  {
    if Matches(filter, dataType) then Shown else Hidden
  }

  /** The settled effect of a filter on one element: a card is restyled by
      its `data-type`; the placeholder is not a `.post-card` and is left as it
      is. */
  function Restyle(e: Element, filter: string): (r: Element)
    ensures r.Placeholder? <==> e.Placeholder?
    ensures e.Placeholder? ==> r == e
    ensures e.PostCard? ==> r.card == e.card && (IsVisible(r.style) <==> Matches(filter, e.card.dataType))
  {
    match e
    case Placeholder(_) => e
    case PostCard(c, _) => PostCard(c, FilterStyle(c.dataType, filter))
  }

  /** The settled effect of a filter on a container: same elements, same
      order, each card visible exactly when it matches. */
  function Filtered(els: seq<Element>, filter: string): (r: seq<Element>)
    ensures |r| == |els|
    ensures forall i :: 0 <= i < |els| ==> r[i] == Restyle(els[i], filter)
  {
    if els == [] then [] else [Restyle(els[0], filter)] + Filtered(els[1..], filter)
  }

  /** The `forEach` of `filterPosts` over the cards of one container. */
  method RestyleAll(els: seq<Element>, filter: string) returns (out: seq<Element>)
    ensures out == Filtered(els, filter)
  {
    out := els;
    for i := 0 to |els|
      invariant |out| == |els|
      invariant forall j :: 0 <= j < i ==> out[j] == Restyle(els[j], filter)
      invariant forall j :: i <= j < |els| ==> out[j] == els[j]
    {
      out := out[i := Restyle(out[i], filter)];
    }
  }

  /** The posts a filter selects, in store order. */
  function Selected(ps: seq<Post>, filter: string): (r: seq<Post>)
    ensures forall p :: p in r ==> p in ps && Matches(filter, p.postType)
    ensures forall p :: p in ps && Matches(filter, p.postType) ==> p in r
  {
    if ps == [] then []
    else (if Matches(filter, ps[0].postType) then [ps[0]] else []) + Selected(ps[1..], filter)
  }

  /** The cards of a container, in order, whatever their style. */
  function CardsIn(els: seq<Element>): seq<Card> {
    if els == [] then []
    else (if els[0].PostCard? then [els[0].card] else []) + CardsIn(els[1..])
  }

  /** The visible cards of a container, in order. */
  function VisibleCards(els: seq<Element>): seq<Card> {
    if els == [] then []
    else
      var head := if els[0].PostCard? && IsVisible(els[0].style) then [els[0].card] else [];
      head + VisibleCards(els[1..])
  }

  /** After filtering a rendered feed, the visible cards are exactly the
      cards of the posts the filter selects, in store order. */
  lemma {:induction false} FilterShowsSelected(ps: seq<Post>, authorLink: bool, filter: string)
    ensures VisibleCards(Filtered(Cards(ps, authorLink), filter)) ==
      CardsIn(Cards(Selected(ps, filter), authorLink))
  {
    if ps != [] {
      var f := Filtered(Cards(ps, authorLink), filter);
      var c0 := CardOf(ps[0], authorLink);
      assert f[0] == PostCard(c0, FilterStyle(ps[0].postType, filter));
      assert f[1..] == Filtered(Cards(ps[1..], authorLink), filter);
      FilterShowsSelected(ps[1..], authorLink, filter);
      var rest := CardsIn(Cards(Selected(ps[1..], filter), authorLink));
      assert VisibleCards(f[1..]) == rest;
      var s := Selected(ps, filter);
      if Matches(filter, ps[0].postType) {
        assert VisibleCards(f) == [c0] + rest;
        assert s == [ps[0]] + Selected(ps[1..], filter);
        var c := Cards(s, authorLink);
        assert c[0] == PostCard(c0, Unstyled);
        assert c[1..] == Cards(Selected(ps[1..], filter), authorLink);
        assert CardsIn(c) == [c0] + rest;
      } else {
        assert VisibleCards(f) == rest;
        assert s == Selected(ps[1..], filter);
      }
    }
  }

  /** The "all" filter selects every post, so every card ends visible. */
  lemma {:induction false} SelectedAll(ps: seq<Post>)
    ensures Selected(ps, "all") == ps
  {
    if ps != [] {
      SelectedAll(ps[1..]);
    }
  }
}
