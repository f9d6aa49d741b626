/** What the two lists show: the recent list (`renderRecentLinks`) and the
    searchable full list (`renderAllLinks`); the markup itself is not modelled. */
module Views {
  import opened Wrappers
  import opened Text
  import opened Sequences
  import opened LinkStore

  /** How many records the recent list shows. */
  const RecentLimit := 5

  /** `links.slice(0, 5)`: the newest records, at most five, in store order. */
  function Recent(links: seq<Link>): (r: seq<Link>)
    ensures |r| <= RecentLimit
    ensures r <= links
    ensures |r| < RecentLimit ==> r == links
  {
    if |links| <= RecentLimit then links else links[..RecentLimit]
  }

  /** A stored link just added heads the recent list, followed by what the recent
      list showed before, minus its last entry when it was full. */
  lemma RecentAfterAdd(links: seq<Link>, form: AddForm, id: int, date: string,
                       parseHost: string -> Option<string>)
    requires !AllSpace(form.url)
    ensures var now := Add(links, form, id, date, parseHost).links;
            && Recent(now)[0] == now[0]
            && Recent(now)[1..] == Recent(links)[..|Recent(now)| - 1]
  {
    var now := Add(links, form, id, date, parseHost).links;
    assert now == [now[0]] + links;
  }

  /** `l.name.toLowerCase().includes(term) || l.url... || l.category...` for an
      already lowercased `term`. */
  function Matches(l: Link, term: string): (b: bool)
    ensures b <==> exists f :: f in [l.name, l.url, l.category] && Contains(Lower(f), term)
    ensures term == [] ==> b
  {
    ContainsEmpty();
    || Contains(Lower(l.name), term)
    || Contains(Lower(l.url), term)
    || Contains(Lower(l.category), term)
  }

  /** The full list under the search bar's text `term`: the records whose name, URL
      or category contains the lowercased term, ignoring case, each as often as in
      the store, in store order; an empty term shows the whole store. */
  function Search(links: seq<Link>, term: string): (r: seq<Link>)
    ensures IsSubsequence(r, links)
    ensures forall l :: multiset(r)[l] == if Matches(l, Lower(term)) then multiset(links)[l] else 0
    ensures forall l :: l in r <==> l in links && Matches(l, Lower(term))
    ensures term == [] ==> r == links
  {
    var lower := Lower(term);
    ContainsEmpty();
    Filter(links, (l: Link) => Matches(l, lower))
  }

  /** The search term's letter case does not matter. */
  lemma SearchIgnoresTermCase(links: seq<Link>, term: string)
    ensures Search(links, term) == Search(links, Lower(term))
  {
    LowerIdempotent(term);
    var lower := Lower(term);
    FilterCongruent(links, (l: Link) => Matches(l, lower), (l: Link) => Matches(l, Lower(lower)));
  }

  /** Searching "stream" (in any case) finds every Stream record, whatever its name and URL. */
  lemma SearchFindsByCategory(links: seq<Link>, l: Link, term: string)
    requires l in links && l.category == "Stream" && Lower(term) == "stream"
    ensures l in Search(links, term)
  {
    assert Lower(l.category) == "stream";
    assert OccursAt(Lower(l.category), "stream", 0);
    ContainsIff(Lower(l.category), "stream");
  }
}
