/** The page as one object (script.js): the post store with its storage
    snapshot, the two post containers, the author heading, and the flag
    groups for navigation links, filter buttons and sections. Each handler of
    the program is a method; clocks, the locale date and the DOM are left
    out, and `id` and `date` are parameters. */
module Board {
  import opened Wrappers
  import opened Posts
  import opened Render
  import opened Selection

  class Board {
    /** The post store, newest first. */
    var posts: seq<Post>
    /** The value held under the storage key `posts`, as a post sequence. */
    var stored: Option<seq<Post>>
    /** The children of `#posts-container`. */
    var feed: seq<Element>
    /** The children of `#user-posts-container`. */
    var userFeed: seq<Element>
    /** The text of `#author-name`. */
    var authorName: string
    /** The navigation links, keyed by `data-section`. */
    const links: Toggles
    /** The filter buttons, keyed by `data-filter`. */
    const buttons: Toggles
    /** The page's sections. */
    const sections: Sections

    /** The flag groups are well formed and no two of them share an array. */
    predicate Valid() {
      links.Valid() && buttons.Valid() && sections.Valid() &&
      links.active != buttons.active &&
      links.active != sections.active && links.active != sections.hidden &&
      buttons.active != sections.active && buttons.active != sections.hidden
    }

    /** Page load: the flags are those of the document; the store is read
        from storage, an absent key giving the empty store, and the feed is
        rendered once. */
    constructor (saved: Option<seq<Post>>,
                 linkSections: seq<string>, linkFlags: seq<bool>,
                 buttonFilters: seq<string>, buttonFlags: seq<bool>,
                 sectionIds: seq<string>, sectionActive: seq<bool>, sectionHidden: seq<bool>)
      requires |linkFlags| == |linkSections| && |buttonFlags| == |buttonFilters|
      requires |sectionActive| == |sectionIds| && |sectionHidden| == |sectionIds|
      ensures Valid()
      ensures fresh(links) && fresh(buttons) && fresh(sections)
      ensures fresh(links.active) && fresh(buttons.active)
      ensures fresh(sections.active) && fresh(sections.hidden)
      ensures posts == (if saved.Some? then saved.value else [])
      ensures stored == saved
      ensures feed == Listing(posts, NoPostsYet, false)
      ensures userFeed == [] && authorName == ""
      ensures links.keys == linkSections && links.active[..] == linkFlags
      ensures buttons.keys == buttonFilters && buttons.active[..] == buttonFlags
      ensures sections.ids == sectionIds
      ensures sections.active[..] == sectionActive && sections.hidden[..] == sectionHidden
    {
      links := new Toggles(linkSections, linkFlags);
      buttons := new Toggles(buttonFilters, buttonFlags);
      sections := new Sections(sectionIds, sectionActive, sectionHidden);
      posts := if saved.Some? then saved.value else [];
      stored := saved;
      userFeed := [];
      authorName := "";
      new;
      RenderPosts();
    }

    /** `renderPosts`: clear the feed, then show the placeholder alone when
        the store is empty and one card per post (no author links) otherwise. */
    method RenderPosts()
      modifies this`feed
      ensures feed == Listing(posts, NoPostsYet, false)
    {
      feed := [];
      if |posts| == 0 {
        feed := [Placeholder(NoPostsYet)];
        return;
      }
      feed := RenderCards(posts, false);
    }

    /** `addPost`: build the record, put it in front of the store, write the
        whole store to storage and re-render the feed. The old posts follow
        it unchanged and in their old order. */
    method AddPost(postType: string, title: string, content: string, author: string,
                   id: int, date: string)
      modifies this`posts, this`stored, this`feed
      ensures posts == [Post(id, postType, title, content, author, date)] + old(posts)
      ensures |posts| == |old(posts)| + 1
      ensures posts[0] == Post(id, postType, title, content, author, date)
      ensures posts[1..] == old(posts)
      ensures stored == Some(posts)
      ensures feed == Listing(posts, NoPostsYet, false)
    {
      var newPost := Post(id, postType, title, content, author, date);
      posts := [newPost] + posts;
      stored := Some(posts);
      RenderPosts();
    }

    /** The submit handler of the form with element id `formId`: the type
        comes from the form map, the title from the first text input, the
        author from the second one, defaulted when blank. */
    method Submit(formId: string, title: string, content: string, authorInput: string,
                  id: int, date: string)
      requires formId in Forms
      modifies this`posts, this`stored, this`feed
      ensures posts == [Post(id, Forms[formId], title, content, AuthorOrDefault(authorInput), date)] + old(posts)
      ensures posts[0].postType in PostTypes
      ensures authorInput == "" ==> posts[0].author == Anonymous
      ensures stored == Some(posts)
      ensures feed == Listing(posts, NoPostsYet, false)
    {
      FormTypes();
      var postType := Forms[formId];
      var author := AuthorOrDefault(authorInput);
      AddPost(postType, title, content, author, id, date);
    }

    /** `filterPosts`: every `.post-card` in the document, in either
        container, settles visible when it matches the filter and hidden
        otherwise; the placeholders are untouched. */
    method FilterPosts(filter: string)
      modifies this`feed, this`userFeed
      ensures feed == Filtered(old(feed), filter)
      ensures userFeed == Filtered(old(userFeed), filter)
    {
      feed := RestyleAll(feed, filter);
      userFeed := RestyleAll(userFeed, filter);
    }

    /** The click handler of navigation link k: only that link is active,
        and only the section it names is shown. */
    method NavClick(k: nat) returns (ok: bool)
      requires Valid() && k < |links.keys|
      modifies links.active, sections.active, sections.hidden
      ensures forall i :: 0 <= i < |links.keys| ==> links.active[i] == (i == k)
      ensures CountTrue(links.active[..]) == 1
      ensures ok == (links.keys[k] in sections.ids)
      ensures forall i :: 0 <= i < |sections.ids| ==>
        sections.active[i] == IsTarget(sections.ids, links.keys[k], i) &&
        sections.hidden[i] == !IsTarget(sections.ids, links.keys[k], i)
      ensures CountTrue(sections.active[..]) == (if ok then 1 else 0)
    {
      links.Select(k);
      ok := sections.Show(links.keys[k]);
    }

    /** The click handler of filter button k: only that button is active,
        then the posts are filtered by its `data-filter`. */
    method FilterClick(k: nat)
      requires Valid() && k < |buttons.keys|
      modifies buttons.active, this`feed, this`userFeed
      ensures forall i :: 0 <= i < |buttons.keys| ==> buttons.active[i] == (i == k)
      ensures CountTrue(buttons.active[..]) == 1
      ensures feed == Filtered(old(feed), buttons.keys[k])
      ensures userFeed == Filtered(old(userFeed), buttons.keys[k])
    {
      buttons.Select(k);
      FilterPosts(buttons.keys[k]);
    }

    /** `renderUserPosts(author)`, as intended: the author view lists the
        author's posts in store order, with author links. With no post by
        that author it holds only the placeholder and nothing else changes;
        otherwise the heading names the author and `user-posts` becomes the
        one shown section. */
    method RenderUserPosts(author: string) returns (ok: bool)
      requires Valid()
      modifies this`userFeed, this`authorName, sections.active, sections.hidden
      ensures userFeed == Listing(ByAuthor(posts, author), NoPostsForAuthor, true)
      ensures ByAuthor(posts, author) == [] ==>
        ok && authorName == old(authorName) &&
        sections.active[..] == old(sections.active[..]) &&
        sections.hidden[..] == old(sections.hidden[..])
      ensures ByAuthor(posts, author) != [] ==>
        authorName == author && ok == ("user-posts" in sections.ids) &&
        (forall i :: 0 <= i < |sections.ids| ==>
          sections.active[i] == IsTarget(sections.ids, "user-posts", i) &&
          sections.hidden[i] == !IsTarget(sections.ids, "user-posts", i))
    {
      userFeed := [];
      var userPosts := ByAuthor(posts, author);
      if |userPosts| == 0 {
        userFeed := [Placeholder(NoPostsForAuthor)];
        return true;
      }
      userFeed := RenderCards(userPosts, true);
      authorName := author;
      ok := sections.Show("user-posts");
    }

    /** The document-wide click handler: a click on an author link opens
        that author's view, exactly as RenderUserPosts does; any other click
        does nothing. Cards in the main feed have no author link. */
    method AuthorLinkClick(target: ClickTarget) returns (ok: bool)
      requires Valid()
      modifies this`userFeed, this`authorName, sections.active, sections.hidden
      ensures target.OtherTarget? ==>
        ok && userFeed == old(userFeed) && authorName == old(authorName) &&
        sections.active[..] == old(sections.active[..]) &&
        sections.hidden[..] == old(sections.hidden[..])
      ensures target.AuthorLink? ==>
        userFeed == Listing(ByAuthor(posts, target.dataAuthor), NoPostsForAuthor, true)
      ensures target.AuthorLink? && ByAuthor(posts, target.dataAuthor) == [] ==>
        ok && authorName == old(authorName) &&
        sections.active[..] == old(sections.active[..]) &&
        sections.hidden[..] == old(sections.hidden[..])
      ensures target.AuthorLink? && ByAuthor(posts, target.dataAuthor) != [] ==>
        authorName == target.dataAuthor && ok == ("user-posts" in sections.ids) &&
        (forall i :: 0 <= i < |sections.ids| ==>
          sections.active[i] == IsTarget(sections.ids, "user-posts", i) &&
          sections.hidden[i] == !IsTarget(sections.ids, "user-posts", i))
    {
      ok := true;
      if target.AuthorLink? {
        ok := RenderUserPosts(target.dataAuthor);
      }
    }

    /** The click handler of the "home" control. */
    method HomeClick() returns (ok: bool)
      requires Valid()
      modifies sections.active, sections.hidden
      ensures ok == ("user-posts" in sections.ids && "posts" in sections.ids)
      ensures forall i :: 0 <= i < |sections.ids| && IsTarget(sections.ids, "user-posts", i) ==>
        !sections.active[i] && sections.hidden[i]
      ensures "user-posts" in sections.ids ==>
        forall i :: 0 <= i < |sections.ids| && IsTarget(sections.ids, "posts", i) ==>
          sections.active[i] && !sections.hidden[i]
      ensures forall i :: 0 <= i < |sections.ids| && !sections.HomeTouches(i) ==>
        sections.active[i] == old(sections.active[i]) &&
        sections.hidden[i] == old(sections.hidden[i])
    {
      ok := sections.ReturnHome();
    }
  }

  /** The byAuthor scenario on the store that three submissions by Ada,
      Bob and Ada leave behind (newest first). */
  lemma AdaBobView(p1: Post, p2: Post, p3: Post)
    requires p1.author == "Ada" && p2.author == "Bob" && p3.author == "Ada"
    ensures ByAuthor([p3, p2, p1], "Ada") == [p3, p1]
  {
    assert "Bob" != "Ada" by { assert "Bob"[0] != "Ada"[0]; }
    assert ByAuthor([p1], "Ada") == [p1] by { assert [p1][1..] == []; }
    assert ByAuthor([p2, p1], "Ada") == [p1] by { assert [p2, p1][1..] == [p1]; }
    assert [p3, p2, p1][1..] == [p2, p1];
  }

  /** A page with an empty store where posts by Ada, Bob and Ada are
      submitted in that order: the author view for Ada lists the two Ada
      posts, newest first. */
  method AuthorViewScenario() returns (view: seq<Element>)
    ensures |view| == 2
    ensures view[0].PostCard? && view[0].card.title == "Third" && view[0].card.author == "Ada"
    ensures view[1].PostCard? && view[1].card.title == "First" && view[1].card.author == "Ada"
  {
    var b := new Board(None, ["posts"], [true], ["all"], [true],
                       ["posts", "user-posts"], [true, false], [false, true]);
    b.Submit("writing-form", "First", "a", "Ada", 1, "d");
    b.Submit("discussion-form", "Second", "b", "Bob", 2, "d");
    b.Submit("writing-form", "Third", "c", "Ada", 3, "d");
    var p1 := Post(1, "writing", "First", "a", "Ada", "d");
    var p2 := Post(2, "discussion", "Second", "b", "Bob", "d");
    var p3 := Post(3, "writing", "Third", "c", "Ada", "d");
    assert b.posts == [p3, p2, p1];
    AdaBobView(p1, p2, p3);
    var _ := b.RenderUserPosts("Ada");
    view := b.userFeed;
    assert view == Cards([p3, p1], true);
  }

  /** A poetry post titled "Moonlight" submitted with a blank author is
      stored with type "poetry" and author "Anonymous", first in the store. */
  method BlankAuthorScenario(older: seq<Post>) returns (first: Post)
    ensures first == Post(4, "poetry", "Moonlight", "verse", Anonymous, "d")
  {
    var b := new Board(Some(older), [], [], [], [], [], [], []);
    b.Submit("poetry-form", "Moonlight", "verse", "", 4, "d");
    first := b.posts[0];
  }
}
