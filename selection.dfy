/** The class flags of script.js as boolean arrays: the `active` class on the
    navigation links and on the filter buttons, and the `active-section` /
    `hidden-section` classes on the page's sections. */
module Selection {
  import opened Wrappers

  /** How many flags are set. */
  function CountTrue(s: seq<bool>): nat {
    if s == [] then 0 else (if s[0] then 1 else 0) + CountTrue(s[1..])
  }

  lemma {:induction false} NoneTrue(s: seq<bool>)
    requires forall i :: 0 <= i < |s| ==> !s[i]
    ensures CountTrue(s) == 0
  {
    if s != [] {
      NoneTrue(s[1..]);
    }
  }

  /** A flag vector set at position k alone has exactly one flag set. */
  lemma {:induction false} ExactlyOneTrue(s: seq<bool>, k: nat)
    requires k < |s|
    requires forall i :: 0 <= i < |s| ==> s[i] == (i == k)
    ensures CountTrue(s) == 1
  {
    if k == 0 {
      NoneTrue(s[1..]);
    } else {
      ExactlyOneTrue(s[1..], k - 1);
    }
  }

  /** `document.getElementById(id)` among the given ids: the first position
      holding `id`, or None when no element has it (the call returns null). */
  function Find(ids: seq<string>, id: string): (r: Option<nat>)
    ensures r.None? <==> id !in ids
    ensures r.Some? ==> r.value < |ids| && ids[r.value] == id
    ensures r.Some? ==> forall j :: 0 <= j < r.value ==> ids[j] != id
  {
    if ids == [] then None
    else if ids[0] == id then Some(0)
    else match Find(ids[1..], id)
      case None => None
      case Some(k) => Some(k + 1)
  }

  /** Position i is the element `getElementById(id)` returns. */
  predicate IsTarget(ids: seq<string>, id: string, i: nat) {
    Find(ids, id) == Some(i)
  }

  /** A group of controls of which the handler marks the clicked one
      `active`: the navigation links, or the filter buttons. `keys[i]` is the
      control's `data-section` or `data-filter` attribute. */
  class Toggles {
    const keys: seq<string>
    const active: array<bool>

    predicate Valid() {
      active.Length == |keys|
    }

    constructor (keys: seq<string>, initial: seq<bool>)
      requires |initial| == |keys|
      ensures Valid() && fresh(active)
      ensures this.keys == keys && active[..] == initial
    {
      this.keys := keys;
      active := new bool[|keys|](i requires 0 <= i < |keys| => initial[i]);
    }

    /** Remove `active` from every control, then add it to control k. */
    method Select(k: nat)
      requires Valid() && k < |keys|
      modifies active
      ensures forall i :: 0 <= i < |keys| ==> active[i] == (i == k)
      ensures CountTrue(active[..]) == 1
    {
      for i := 0 to active.Length
        invariant forall j :: 0 <= j < i ==> !active[j]
      {
        active[i] := false;
      }
      active[k] := true;
      ExactlyOneTrue(active[..], k);
    }
  }

  /** The page's `section` elements: their ids and their two class flags. */
  class Sections {
    const ids: seq<string>
    const active: array<bool>   // holds `active-section`
    const hidden: array<bool>   // holds `hidden-section`

    predicate Valid() {
      active.Length == |ids| && hidden.Length == |ids| && active != hidden
    }

    constructor (ids: seq<string>, initialActive: seq<bool>, initialHidden: seq<bool>)
      requires |initialActive| == |ids| && |initialHidden| == |ids|
      ensures Valid() && fresh(active) && fresh(hidden)
      ensures this.ids == ids && active[..] == initialActive && hidden[..] == initialHidden
    {
      this.ids := ids;
      active := new bool[|ids|](i requires 0 <= i < |ids| => initialActive[i]);
      hidden := new bool[|ids|](i requires 0 <= i < |ids| => initialHidden[i]);
    }

    /** Every section loses `active-section` and gains `hidden-section`. */
    method HideAll()
      requires Valid()
      modifies active, hidden
      ensures forall i :: 0 <= i < |ids| ==> !active[i] && hidden[i]
      ensures CountTrue(active[..]) == 0
    {
      for i := 0 to |ids|
        invariant forall j :: 0 <= j < i ==> !active[j] && hidden[j]
      {
        active[i] := false;
        hidden[i] := true;
      }
      NoneTrue(active[..]);
    }

    /** Look up `id`; when found, remove `hidden-section` and add
        `active-section` on it. When not found the program dereferences null
        and stops: `ok` is false and nothing changed. */
    method Activate(id: string) returns (ok: bool)
      requires Valid()
      modifies active, hidden
      ensures ok == (id in ids)
      ensures forall i :: 0 <= i < |ids| && IsTarget(ids, id, i) ==> active[i] && !hidden[i]
      ensures forall i :: 0 <= i < |ids| && !IsTarget(ids, id, i) ==>
        active[i] == old(active[i]) && hidden[i] == old(hidden[i])
    {
      var found := Find(ids, id);
      if found.None? {
        return false;
      }
      hidden[found.value] := false;
      active[found.value] := true;
      ok := true;
    }

    /** Look up `id`; when found, remove `active-section` and add
        `hidden-section` on it. A missing id stops the program as above. */
    method Deactivate(id: string) returns (ok: bool)
      requires Valid()
      modifies active, hidden
      ensures ok == (id in ids)
      ensures forall i :: 0 <= i < |ids| && IsTarget(ids, id, i) ==> !active[i] && hidden[i]
      ensures forall i :: 0 <= i < |ids| && !IsTarget(ids, id, i) ==>
        active[i] == old(active[i]) && hidden[i] == old(hidden[i])
    {
      var found := Find(ids, id);
      if found.None? {
        return false;
      }
      active[found.value] := false;
      hidden[found.value] := true;
      ok := true;
    }

    /** Hide every section, then show the one with `id`. Afterwards exactly
        that section holds `active-section` and every other one holds
        `hidden-section`. A missing id leaves every section hidden. */
    method Show(id: string) returns (ok: bool)
      requires Valid()
      modifies active, hidden
      ensures ok == (id in ids)
      ensures forall i :: 0 <= i < |ids| ==> active[i] == IsTarget(ids, id, i)
      ensures forall i :: 0 <= i < |ids| ==> hidden[i] == !IsTarget(ids, id, i)
      ensures CountTrue(active[..]) == (if ok then 1 else 0)
    {
      HideAll();
      ok := Activate(id);
      if ok {
        ExactlyOneTrue(active[..], Find(ids, id).value);
      } else {
        NoneTrue(active[..]);
      }
    }

    /** The sections the "home" control may change: `user-posts`, and
        `posts` provided the program got past the `user-posts` lookup. */
    predicate HomeTouches(i: nat) {
      IsTarget(ids, "user-posts", i) || ("user-posts" in ids && IsTarget(ids, "posts", i))
    }

    /** The "home" control: `user-posts` goes from active to hidden, then
        `posts` from hidden to active; no other section is touched. */
    method ReturnHome() returns (ok: bool)
      requires Valid()
      modifies active, hidden
      ensures ok == ("user-posts" in ids && "posts" in ids)
      ensures forall i :: 0 <= i < |ids| && IsTarget(ids, "user-posts", i) ==> !active[i] && hidden[i]
      ensures "user-posts" in ids ==>
        forall i :: 0 <= i < |ids| && IsTarget(ids, "posts", i) ==> active[i] && !hidden[i]
      ensures forall i :: 0 <= i < |ids| && !HomeTouches(i) ==>
        active[i] == old(active[i]) && hidden[i] == old(hidden[i])
    {
      ok := Deactivate("user-posts");
      if !ok {
        return;
      }
      ok := Activate("posts");
    }
  }
}
