# A model of the post board page script

The repository is a single browser script, `script.js`, for a page where
visitors publish short texts (writing, poetry, discussion posts) that are kept in
the browser's local storage. This project models the logic under the DOM wiring:

- **Post store** (`board.dfy`, `posts.dfy`). A `Board` object holds the post
  sequence, newest first, and the snapshot written to the storage key `posts`.
  `AddPost` prepends one record (`unshift`), writes the whole store and re-renders
  the feed. `Submit` is a form's submit handler. It takes the post type from the
  fixed map of form ids (`Forms`) and defaults an empty author field to
  `"Anonymous"`.
- **Rendering as data** (`render.dfy`). A container's children are a sequence of
  `Element`s: either the one placeholder paragraph, or one `Card` per post in
  store order. Each card records its `data-type`, its capitalized type label,
  its text fields and whether its author name is an author link.
- **Filtering** (`render.dfy`). A card ends visible (display `block`, opacity
  `1`) exactly when the filter is `"all"` or equals its `data-type`. Every other
  card ends hidden (opacity `0`, display `none`).
- **Exclusive selection** (`selection.dfy`). The navigation links and the filter
  buttons are `Toggles`: arrays of `active` flags of which a click leaves exactly
  one set. The page's sections are `Sections`: two flag arrays, one for
  `active-section` and one for `hidden-section`. A navigation click shows exactly
  the target section and hides every other one. The "home" control changes only
  `user-posts` and `posts`.
- **Author view** (`board.dfy`). `RenderUserPosts` lists an author's posts
  (case-sensitive match, store order) with author links, then shows
  `user-posts`.

`id` and `date` are parameters, because the program takes them from `Date.now()`
and `toLocaleDateString()`. The storage key holds an already-decoded
`Option<seq<Post>>`, with `None` for an absent key.

The model keeps these behaviours of the code as written:

- The author is defaulted only when the input is the empty string. A value of
  spaces is stored as typed (`||` on a string).
- Cards in the main feed carry no author link. The closure's
  `createPostElement` (script.js:142) shadows the top-level one (script.js:240)
  that has the link; only the author view uses the top-level one.
- `renderUserPosts` returns early when the author has no posts. In that case the
  sections and the author heading are left as they were: only the placeholder
  changes.
- A lookup of a section id that no section has makes the program fail on a null
  element. The model returns `ok == false`. It keeps any flags the handler had
  already changed before the failing lookup.
- Unreadable stored data makes `JSON.parse` throw. It is not treated as an
  empty store.
- Post ids come from the clock and are not unique: two posts made in the same
  millisecond share one. No uniqueness is claimed.

## Model

| member | source | states |
|---|---|---|
| Posts.FormTypes | script.js:51-55 | exactly three forms have a handler; each yields one of writing, poetry, discussion; no two forms yield the same type |
| Posts.AuthorOrDefault | script.js:65 | the stored author is never empty; it is "Anonymous" exactly when the input was empty (or was "Anonymous"); any non-empty input is kept verbatim |
| Posts.WhitespaceAuthorKept | script.js:65 | an author of one space is kept, not defaulted; the empty input gives "Anonymous" |
| Posts.Capitalize | script.js:148 | the label has the type's length, its first character upper-cased and every later character unchanged |
| Posts.Upper | script.js:148 | maps a-z to A-Z and leaves every other character unchanged (ASCII only) |
| Posts.CapitalizeInjective | script.js:145-148 | two types that start with a lower-case letter and show the same label are equal, so the label and the data-type carry the same information |
| Posts.TypeLabels | script.js:148 | the three form types show as Writing, Poetry, Discussion |
| Posts.ByAuthor | script.js:267 | the author view is no longer than the store and holds only posts by that author |
| Posts.ByAuthorMembers | script.js:267 | a post is in the author view iff it is in the store and its author equals the query, case-sensitively |
| Posts.MatchingIndices | script.js:267 | the positions of the author's posts, strictly increasing, each one a match |
| Posts.MatchingIndicesComplete | script.js:267 | every position holding a post by the author is among MatchingIndices |
| Posts.ByAuthorAtIndices | script.js:267 | the k-th post of the author view is the store's post at the k-th matching position, so order is kept and nothing is duplicated or dropped |
| Posts.ByAuthorConcat | script.js:267 | the view of two concatenated stores is the concatenation of their views |
| Posts.ByAuthorAfterAdd | script.js:115 | after a prepend, the new post comes first in its author's view, ahead of older ones; other views are unchanged |
| Render.CardOf | script.js:142-162 | a card carries the post's type as data-type, a label as long as the type, the post's title, author, date and content, and an author link exactly when built by the top-level definition (script.js:240-260) |
| Render.Listing | script.js:128-138 | a container always has a first child; it is the placeholder, with the given message, exactly when there are no posts |
| Render.Cards | script.js:135-138 | one unstyled card per post, in store order; card i is built from post i |
| Render.CardsCount | script.js:135-138 | a card list holds exactly as many cards as posts and no placeholder |
| Render.ListingShape | script.js:126-139 | an empty store renders exactly one placeholder and no card; otherwise one card per post, card i with data-type and label taken from post i's type |
| Render.RenderCards | script.js:135-138 | the append loop produces exactly the card list of the posts |
| Render.FilterStyle | script.js:169-181 | a card ends visible iff the filter is "all" or equals its data-type; a matching card ends with display block and opacity 1, any other with display none and opacity 0 |
| Render.Restyle | script.js:169-181 | one iteration of the filter: a card keeps its content and ends visible iff it matches; the placeholder is unchanged |
| Render.Filtered | script.js:168-182 | filtering keeps every element in place and restyles each card by its own data-type alone |
| Render.RestyleAll | script.js:168-182 | the loop over the cards produces exactly the filtered container |
| Render.Selected | script.js:169 | the posts a filter selects: only posts whose type matches, and every matching post |
| Render.FilterShowsSelected | script.js:165-183 | after filtering a rendered feed, the visible cards are exactly the cards of the posts the filter selects, in store order |
| Render.SelectedAll | script.js:169 | the "all" filter selects every post |
| Selection.NoneTrue | script.js:19-22 | a flag vector with no flag set counts zero set flags |
| Selection.ExactlyOneTrue | script.js:11-14 | a flag vector set at one position alone counts exactly one set flag |
| Selection.Find | script.js:25 | getElementById returns the first element with the id, or none iff no element has it |
| Selection.Toggles.Select | script.js:11-14 | after a click exactly the clicked control holds active |
| Selection.Sections.HideAll | script.js:19-22 | every section ends without active-section and with hidden-section |
| Selection.Sections.Activate | script.js:25-27 | the target section gains active-section and loses hidden-section; others are unchanged; a missing id changes nothing and fails |
| Selection.Sections.Deactivate | script.js:309-310 | the target section loses active-section and gains hidden-section; others are unchanged; a missing id changes nothing and fails |
| Selection.Sections.Show | script.js:19-27 | exactly the target section holds active-section and every other holds hidden-section; a missing id leaves all hidden |
| Selection.Sections.ReturnHome | script.js:307-313 | user-posts ends hidden and posts ends active; no other section changes |
| Board.Board.constructor | script.js:99-102 | the store is the saved sequence or empty for an absent key, and the feed is rendered from it |
| Board.Board.RenderPosts | script.js:126-139 | the feed is the placeholder alone for an empty store, otherwise one card per post without author link |
| Board.Board.AddPost | script.js:105-118 | the new post is at index 0, the store grows by one, the old posts follow unchanged and in order, storage holds the new store, and the feed is re-rendered |
| Board.Board.Submit | script.js:57-67 | the stored post has the form's type, one of the three, the given title and content, and the defaulted author |
| Board.Board.FilterPosts | script.js:165-183 | both containers are filtered; placeholders are untouched |
| Board.Board.NavClick | script.js:6-27 | exactly the clicked link is active and exactly the named section is shown; every other section is hidden |
| Board.Board.FilterClick | script.js:85-95 | exactly the clicked button is active and the cards are filtered by its data-filter |
| Board.Board.RenderUserPosts | script.js:263-290 | the author view lists exactly that author's posts in store order, or the placeholder; with posts, the heading names the author and only user-posts is shown; without, nothing else changes |
| Board.Board.AuthorLinkClick | script.js:299-304 | a click on an author link renders the view for its data-author; with posts the heading names the author and only user-posts is shown, without posts only the placeholder changes; any other click changes nothing |
| Board.Board.HomeClick | script.js:307-313 | user-posts is hidden and posts shown; no other section changes |
| Board.AdaBobView | script.js:267 | on the store left by posts from Ada, Bob, Ada, the view for Ada is the two Ada posts, newest first |
| Board.AuthorViewScenario | script.js:263-277 | submitting posts by Ada, Bob, Ada and opening Ada's view gives her two cards, newest first |
| Board.BlankAuthorScenario | script.js:62-67 | a poetry post titled Moonlight with a blank author is stored first, with type poetry and author Anonymous |

## Left out

- HTML markup and `innerHTML` strings (script.js:150-159, script.js:248-257): a card is a record, not markup. That the markup is not escaped is a rendering concern outside the model.
- JSON encoding and `localStorage` (script.js:99, script.js:122): storage holds the decoded post sequence. `JSON.parse` throwing on corrupt data is not modelled. Nor are stored values such as `null` or `0` that `|| []` turns into an empty store.
- `Date.now()` and `toLocaleDateString()` (script.js:107, script.js:112): foreign calls, so they are parameters.
- Timers, `scrollIntoView` and the fade (script.js:30-32, 76-78, 171-180, 293-295, 316-318): only the settled end state is modelled. A stale timer from an earlier filter click can still change a card; that race is not modelled.
- The scroll-down button and the parallax effect (script.js:37-48): scrolling and floating-point arithmetic.
- Notifications and the injected style sheet (script.js:186-234), and the form reset (script.js:70): UI lifecycle with no state the rest of the page reads.
- Reading the form fields (script.js:63-65): the title, content and second text input are parameters. A form with fewer than two text inputs would fail; that is not modelled.
- `getElementById` finding an element that is not one of the page's sections: it is looked up only among the sections.
- At runtime the top-level `renderUserPosts` (script.js:263) throws at script.js:267. The store `posts` and the list `sections` are local to the page-load closure (script.js:4, script.js:99). At the top level the name `posts` resolves at best to the page element with id `posts`, which has no `filter` method. The model gives the intended behaviour over the page's store and sections. It does not claim that the program reaches it.
- Posts.Upper, Posts.Capitalize: `toUpperCase` is modelled for the ASCII letters only; JavaScript also upper-cases non-ASCII letters (for example `é` becomes `É`). Full Unicode case mapping can change the length of a string (for example `ß` becomes `SS`); the three form types are plain ASCII.
