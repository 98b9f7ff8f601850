/**
 What several parts of the model share.
*/
module Common {

  datatype Option<T> = None | Some(value: T)

  /** What a search looks for: a key, the page with a given high key, the last page or the first one. */
  datatype Target<K> = Ordinary(k: K) | HighKey(k: K) | Rightmost | Leftmost

  /** The target lies at or right of a separator with this key. */
  predicate Passes(t: Target<int>, key: int) {
    match t
    case Ordinary(k) => k >= key
    case HighKey(k) => k > key
    case Rightmost => true
    case Leftmost => false
  }

  /** An item of a non-leaf page; the first one of a page has no key. */
  datatype Link<C> = Link(key: Option<int>, child: C)

  /** The items as a page's own: the first key is cut off. */
  function CutFirst<C>(links: seq<Link<C>>): seq<Link<C>> {
    KeyFirst(links, None)
  }

  /** The first item gets a key when its page is appended to another. */
  function KeyFirst<C>(links: seq<Link<C>>, key: Option<int>): seq<Link<C>> {
    if links == [] then [] else [Link(key, links[0].child)] + links[1..]
  }

  /** The search passes an item with this key; one without a key is always passed. */
  predicate PassesLink<C>(t: Target<int>, link: Link<C>) {
    link.key.Some? ==> Passes(t, link.key.value)
  }

  /** The item a search in a non-leaf page chooses: the last one passed, or the first one. */
  function Pick<C>(links: seq<Link<C>>, t: Target<int>): (i: nat)
    requires links != []
    ensures i < |links|
  {
    if |links| == 1 || PassesLink(t, links[|links| - 1]) then |links| - 1 else Pick(links[..|links| - 1], t)
  }

  lemma {:induction false} PickIs<C>(links: seq<Link<C>>, t: Target<int>, i: nat)
    requires i < |links| && (i == 0 || PassesLink(t, links[i]))
    requires forall j :: i < j < |links| ==> !PassesLink(t, links[j])
    ensures Pick(links, t) == i
    decreases |links|
  {
    if i + 1 < |links| {
      PickIs(links[..|links| - 1], t, i);
    }
  }

  lemma {:induction false} PickMeans<C>(links: seq<Link<C>>, t: Target<int>)
    requires links != []
    ensures var i := Pick(links, t);
            (i == 0 || PassesLink(t, links[i])) && forall j :: i < j < |links| ==> !PassesLink(t, links[j])
    decreases |links|
  {
    if |links| > 1 && !PassesLink(t, links[|links| - 1]) {
      PickMeans(links[..|links| - 1], t);
    }
  }
}
