/** The post record, the form-to-type map, the author default, the type label,
    and the per-author query over the post store (script.js). */
module Posts {

  /** One stored post. `id` and `date` are supplied by the caller: in the
      program they come from the clock (`Date.now()`) and from the locale
      date formatter. */
  datatype Post = Post(
    id: int,
    postType: string,
    title: string,
    content: string,
    author: string,
    date: string)

  /** The fixed map from each creation form's element id to the post type it
      publishes. Only these three forms get a submit handler. */
  const Forms: map<string, string> :=
    map["writing-form" := "writing", "poetry-form" := "poetry", "discussion-form" := "discussion"]

  /** The post types a form can produce. */
  const PostTypes: set<string> := {"writing", "poetry", "discussion"}

  /** The author stored when the author field is left blank. */
  const Anonymous: string := "Anonymous"

  /** Every form yields one of the three post types, and no two forms yield
      the same type, so the type of a post tells which form created it. */
  lemma FormTypes()
    ensures Forms.Keys == {"writing-form", "poetry-form", "discussion-form"}
    ensures forall f :: f in Forms ==> Forms[f] in PostTypes
    ensures forall f, g :: f in Forms && g in Forms && Forms[f] == Forms[g] ==> f == g
  {
  }

  /** JavaScript truthiness of a string value: only the empty string is falsy. */
  predicate Truthy(s: string) {
    s != ""
  }

  /** `value || 'Anonymous'` on the second text input of a form. The stored
      author is never blank; it is "Anonymous" exactly when the input was
      empty or was itself "Anonymous", and otherwise the input verbatim
      (whitespace is not trimmed). */
  function AuthorOrDefault(input: string): (r: string)
    ensures r != ""
    ensures r == Anonymous <==> (input == "" || input == Anonymous)
    ensures input != "" ==> r == input
  {
    if Truthy(input) then input else Anonymous
  }

  /** A blank-looking author made of spaces is kept as typed. */
  lemma WhitespaceAuthorKept()
    ensures AuthorOrDefault(" ") == " "
    ensures AuthorOrDefault("") == Anonymous
  {
  }

  /** `toUpperCase` on one character, for the ASCII letters. */
  function Upper(c: char): (u: char)
    ensures 'a' <= c <= 'z' ==> 'A' <= u <= 'Z' && u as int == c as int - 32
    ensures !('a' <= c <= 'z') ==> u == c
  {
    if 'a' <= c <= 'z' then (c as int - 32) as char else c
  }

  /** `t.charAt(0).toUpperCase() + t.slice(1)`: the label shown for a post
      type. On the empty string both halves are empty. */
  function Capitalize(t: string): (r: string)
    ensures |r| == |t|
    ensures |t| > 0 ==> r[0] == Upper(t[0])
    ensures forall i :: 1 <= i < |t| ==> r[i] == t[i]
  {
    if t == [] then [] else [Upper(t[0])] + t[1..]
  }

  /** Two types that start with a lower-case letter and show the same label
      are the same type: the label and the `data-type` carry the same
      information. */
  lemma CapitalizeInjective(s: string, t: string)
    requires |s| > 0 && 'a' <= s[0] <= 'z'
    requires |t| > 0 && 'a' <= t[0] <= 'z'
    requires Capitalize(s) == Capitalize(t)
    ensures s == t
  {
    assert s[1..] == Capitalize(s)[1..] == Capitalize(t)[1..] == t[1..];
    assert Upper(s[0]) == Capitalize(s)[0] == Capitalize(t)[0] == Upper(t[0]);
    assert s == [s[0]] + s[1..] && t == [t[0]] + t[1..];
  }

  /** The three labels a form-produced post can show. */
  lemma TypeLabels()
    ensures Capitalize("writing") == "Writing"
    ensures Capitalize("poetry") == "Poetry"
    ensures Capitalize("discussion") == "Discussion"
  {
  }

  /** `posts.filter(post => post.author === author)`: the posts of one author,
      compared case-sensitively, in store order. */
  function ByAuthor(ps: seq<Post>, author: string): (r: seq<Post>)
    ensures |r| <= |ps|
    ensures forall k :: 0 <= k < |r| ==> r[k].author == author
  {
    if ps == [] then []
    else (if ps[0].author == author then [ps[0]] else []) + ByAuthor(ps[1..], author)
  }

  /** A post is in an author's view exactly when it is in the store and was
      written by that author. */
  lemma {:induction false} ByAuthorMembers(ps: seq<Post>, author: string, p: Post)
    ensures p in ByAuthor(ps, author) <==> p in ps && p.author == author
  {
    if ps != [] {
      ByAuthorMembers(ps[1..], author, p);
      assert ps == [ps[0]] + ps[1..];
    }
  }

  /** Adds one to every index. */
  function Shift(s: seq<nat>): (r: seq<nat>)
    ensures |r| == |s|
    ensures forall k :: 0 <= k < |s| ==> r[k] == s[k] + 1
  {
    seq(|s|, k requires 0 <= k < |s| => s[k] + 1)
  }

  /** The positions in `ps` of the posts written by `author`, in strictly
      increasing order, each one a match. */
  function MatchingIndices(ps: seq<Post>, author: string): (idx: seq<nat>)
    ensures forall k :: 0 <= k < |idx| ==> idx[k] < |ps| && ps[idx[k]].author == author
    ensures forall k, l :: 0 <= k < l < |idx| ==> idx[k] < idx[l]
  {
    if ps == [] then []
    else
      var inner := MatchingIndices(ps[1..], author);
      assert forall k :: 0 <= k < |inner| ==> ps[inner[k] + 1] == ps[1..][inner[k]];
      (if ps[0].author == author then [0] else []) + Shift(inner)
  }

  /** Every match is listed by MatchingIndices. */
  lemma {:induction false} MatchingIndicesComplete(ps: seq<Post>, author: string, j: nat)
    requires j < |ps| && ps[j].author == author
    ensures j in MatchingIndices(ps, author)
  {
    var idx := MatchingIndices(ps, author);
    if j == 0 {
      assert idx[0] == 0;
    } else {
      assert ps[1..][j - 1] == ps[j];
      MatchingIndicesComplete(ps[1..], author, j - 1);
      var inner := MatchingIndices(ps[1..], author);
      var k :| 0 <= k < |inner| && inner[k] == j - 1;
      var shifted := Shift(inner);
      assert shifted[k] == j;
      if ps[0].author == author {
        assert idx == [0] + shifted;
        assert idx[k + 1] == j;
      } else {
        assert idx == shifted;
      }
    }
  }

  /** The per-author view keeps order: its k-th post is the post at the k-th
      matching position of the store. Together with MatchingIndices and
      MatchingIndicesComplete this says the view is exactly the store
      restricted to that author, with nothing reordered, dropped or
      duplicated. */
  lemma {:induction false} ByAuthorAtIndices(ps: seq<Post>, author: string)
    ensures |ByAuthor(ps, author)| == |MatchingIndices(ps, author)|
    ensures forall k :: 0 <= k < |ByAuthor(ps, author)| ==>
      ByAuthor(ps, author)[k] == ps[MatchingIndices(ps, author)[k]]
  {
    if ps != [] {
      ByAuthorAtIndices(ps[1..], author);
      var tail := ByAuthor(ps[1..], author);
      var inner := MatchingIndices(ps[1..], author);
      var r := ByAuthor(ps, author);
      var idx := MatchingIndices(ps, author);
      if ps[0].author == author {
        assert r == [ps[0]] + tail;
        assert idx == [0] + Shift(inner);
        forall k | 1 <= k < |r| ensures r[k] == ps[idx[k]] {
          ShiftedLookup(ps, inner, k - 1);
        }
      } else {
        assert r == tail;
        assert idx == Shift(inner);
        forall k | 0 <= k < |r| ensures r[k] == ps[idx[k]] {
          ShiftedLookup(ps, inner, k);
        }
      }
    }
  }

  /** A position in the tail of a store is one more than the position in
      the store itself. */
  lemma ShiftedLookup(ps: seq<Post>, inner: seq<nat>, k: nat)
    requires ps != [] && k < |inner| && inner[k] < |ps| - 1
    ensures ps[1..][inner[k]] == ps[Shift(inner)[k]]
  {
  }

  /** Filtering distributes over concatenation: the view of a store made of
      two parts is the view of the first part followed by that of the second. */
  lemma {:induction false} ByAuthorConcat(xs: seq<Post>, ys: seq<Post>, author: string)
    ensures ByAuthor(xs + ys, author) == ByAuthor(xs, author) + ByAuthor(ys, author)
  {
    if xs == [] {
      assert xs + ys == ys;
    } else {
      assert (xs + ys)[1..] == xs[1..] + ys;
      ByAuthorConcat(xs[1..], ys, author);
    }
  }

  /** A newly prepended post appears first in its author's view, ahead of
      that author's older posts; other authors' views are unchanged. */
  lemma ByAuthorAfterAdd(p: Post, ps: seq<Post>, author: string)
    ensures ByAuthor([p] + ps, author) ==
      if p.author == author then [p] + ByAuthor(ps, author) else ByAuthor(ps, author)
  {
    ByAuthorConcat([p], ps, author);
  }
}
