/** The link store and the operations that change it: `addLink`, `deleteLink`,
    and the edit session `openEditModal` / `closeEditModal` / `saveEdit`.
    The browser around them is turned into parameters: the form fields are
    values, `Date.now()` and the ISO date are `id` and `date`, `confirm` is a
    boolean, and `new URL(url).hostname` is `parseHost`, which answers None
    where the URL constructor throws. */
module LinkStore {
  import opened Wrappers
  import opened Text
  import opened Sequences
  import Classifier
  import opened Badges

  /** One saved bookmark. */
  datatype Link = Link(id: int, url: string, name: string, category: string, badgeClass: string, date: string)

  /** The stored badge class is the one the lookup assigns to the stored category. */
  predicate BadgeConsistent(l: Link) {
    l.badgeClass == Badge(l.category)
  }

  predicate AllConsistent(links: seq<Link>) {
    forall i :: 0 <= i < |links| ==> BadgeConsistent(links[i])
  }

  // ---------------------------------------------------------------------------
  // addLink

  /** The value of the category selector that asks for auto-detection. */
  const AutoCategory := "Auto"
  /** The name used when the URL cannot be parsed. */
  const FallbackName := "Link"
  /** The text removed (once) from a parsed hostname. */
  const WwwPrefix := "www."

  /** The raw values of the add form: URL input, manual name, category selector. */
  datatype AddForm = AddForm(url: string, name: string, category: string)

  /** Whether the link was stored or the "Please enter a URL" alert was raised. */
  datatype AddStatus = Stored | MissingUrl

  datatype AddResult = AddResult(links: seq<Link>, status: AddStatus)

  /** The category of a new link: the selector's label verbatim unless it is "Auto",
      else the classifier's verdict on the URL; either way the badge class is the
      lookup's class for the label. */
  function ResolveCategory(url: string, choice: string): (c: Classifier.Category)
    ensures c.badge == Badge(c.name)
    ensures choice != AutoCategory ==> c.name == choice
    ensures choice == AutoCategory ==> c == Classifier.Detect(url)
  {
    if choice != AutoCategory then Classifier.Category(choice, Badge(choice))
    else
      DetectAgreesWithBadge(url);
      Classifier.Detect(url)
  }

  /** `hostname.replace('www.', '')`: the host without its first "www.", wherever
      that occurs; a host starting with "www." loses exactly that prefix, and one
      without "www." is kept. */
  function StripWww(host: string): (r: string)
    ensures !Contains(host, WwwPrefix) ==> r == host
    ensures Contains(host, WwwPrefix) ==> |r| == |host| - |WwwPrefix|
    ensures StartsWith(host, WwwPrefix) ==> r == host[|WwwPrefix|..]
    ensures forall i :: OccursAt(host, WwwPrefix, i) && (forall j :: 0 <= j < i ==> !OccursAt(host, WwwPrefix, j))
                        ==> r == host[..i] + host[i + |WwwPrefix|..]
  {
    ContainsIff(host, WwwPrefix);
    assert StartsWith(host, WwwPrefix) ==> OccursAt(host, WwwPrefix, 0);
    RemoveFirst(host, WwwPrefix)
  }

  /** The name of a new link: the trimmed manual name when it is not blank; else
      the parsed hostname with its first "www." removed; else "Link". */
  function ResolveName(manual: string, url: string, parseHost: string -> Option<string>): (r: string)
    ensures !AllSpace(manual) ==> r == Trim(manual) && r != [] && !IsSpace(r[0])
    ensures AllSpace(manual) && parseHost(url).None? ==> r == FallbackName
    ensures AllSpace(manual) && parseHost(url).Some? ==> r == StripWww(parseHost(url).value)
  {
    var typed := Trim(manual);
    if typed != [] then typed
    else match parseHost(url)
      case None => FallbackName
      case Some(host) => StripWww(host)
  }

  /** `addLink`: a blank URL changes nothing and raises the alert; otherwise the new
      record, with the trimmed URL, the clock's id and date, a resolved name and a
      badge class consistent with its category, is put in front of the unchanged
      old store. */
  function Add(links: seq<Link>, form: AddForm, id: int, date: string,
               parseHost: string -> Option<string>): (r: AddResult)
    ensures r.status == MissingUrl <==> AllSpace(form.url)
    ensures r.status == MissingUrl ==> r.links == links
    ensures r.status == Stored ==> |r.links| == |links| + 1 && r.links[1..] == links
    ensures r.status == Stored ==> && r.links[0].id == id
                                   && r.links[0].date == date
                                   && r.links[0].url == Trim(form.url)
                                   && r.links[0].url != []
                                   && BadgeConsistent(r.links[0])
    ensures r.status == Stored && form.category != AutoCategory ==> r.links[0].category == form.category
    ensures r.status == Stored && form.category == AutoCategory
            ==> r.links[0].category == Classifier.Detect(Trim(form.url)).name
    ensures r.status == Stored ==> r.links[0].name == ResolveName(form.name, Trim(form.url), parseHost)
  {
    var url := Trim(form.url);
    if url == [] then AddResult(links, MissingUrl)
    else
      var c := ResolveCategory(url, form.category);
      var link := Link(id, url, ResolveName(form.name, url, parseHost), c.name, c.badge, date);
      AddResult([link] + links, Stored)
  }

  /** Adding never breaks badge consistency of the store. */
  lemma AddPreservesConsistency(links: seq<Link>, form: AddForm, id: int, date: string,
                                parseHost: string -> Option<string>)
    requires AllConsistent(links)
    ensures AllConsistent(Add(links, form, id, date, parseHost).links)
  {
    var r := Add(links, form, id, date, parseHost);
    if r.status == Stored {
      forall i | 0 <= i < |r.links|
        ensures BadgeConsistent(r.links[i])
      {
        if i > 0 {
          assert r.links[i] == r.links[1..][i - 1];
        }
      }
    }
  }

  /** With no manual name, a URL whose host parses as "www.example.com" (such as
      "https://www.example.com/page") is named "example.com". */
  lemma NameFromExampleHost(url: string, parseHost: string -> Option<string>)
    requires parseHost(url) == Some("www.example.com")
    ensures ResolveName("", url, parseHost) == "example.com"
  {
    ExampleHostStrips(parseHost(url).value);
  }

  lemma ExampleHostStrips(host: string)
    requires host == "www.example.com"
    ensures StripWww(host) == "example.com"
  {
    assert host[..4] == WwwPrefix;
    assert host[4..] == "example.com";
  }

  /** With no manual name, a URL the parser rejects (such as "not a url") is named "Link". */
  lemma NameFallsBackToLink(url: string, parseHost: string -> Option<string>)
    requires parseHost(url) == None
    ensures ResolveName("", url, parseHost) == FallbackName
  {
  }

  /** A URL with no whitespace at either end is stored as typed, under the name
      resolved from it. */
  lemma AddUnpadded(links: seq<Link>, form: AddForm, id: int, date: string,
                    parseHost: string -> Option<string>)
    requires form.url != [] && !IsSpace(form.url[0]) && !IsSpace(form.url[|form.url| - 1])
    ensures var r := Add(links, form, id, date, parseHost);
            && r.status == Stored
            && r.links[0].url == form.url
            && r.links[0].name == ResolveName(form.name, form.url, parseHost)
  {
    TrimKeepsUnpadded(form.url);
  }

  // ---------------------------------------------------------------------------
  // deleteLink

  /** `deleteLink`: once confirmed, exactly the records whose id differs from `id`,
      in their original order; declined, or with no such id, the store as it was. */
  function Delete(links: seq<Link>, id: int, confirmed: bool): (r: seq<Link>)
    ensures !confirmed ==> r == links
    ensures confirmed ==> forall i :: 0 <= i < |r| ==> r[i].id != id
    ensures confirmed ==> forall l :: multiset(r)[l] == if l.id != id then multiset(links)[l] else 0
    ensures IsSubsequence(r, links)
    ensures (forall i :: 0 <= i < |links| ==> links[i].id != id) ==> r == links
  {
    if confirmed then Filter(links, (l: Link) => l.id != id)
    else
      SubsequenceReflexive(links);
      links
  }

  /** Deleting keeps badge consistency: every surviving record was in the store. */
  lemma DeletePreservesConsistency(links: seq<Link>, id: int, confirmed: bool)
    requires AllConsistent(links)
    ensures AllConsistent(Delete(links, id, confirmed))
  {
    var r := Delete(links, id, confirmed);
    forall i | 0 <= i < |r|
      ensures BadgeConsistent(r[i])
    {
      assert r[i] in multiset(r);
      assert r[i] in links;
    }
  }

  // ---------------------------------------------------------------------------
  // The edit session

  /** Some record has this id. */
  predicate HasId(links: seq<Link>, id: int) {
    exists i :: 0 <= i < |links| && links[i].id == id
  }

  /** `k` is the position `links.find` / `links.findIndex` stop at for `id`. */
  ghost predicate FirstWithId(links: seq<Link>, id: int, k: int) {
    && 0 <= k < |links|
    && links[k].id == id
    && forall j :: 0 <= j < k ==> links[j].id != id
  }

  /** `links.findIndex(l => l.id === id)`, with None for -1. */
  function FindIndex(links: seq<Link>, id: int): (r: Option<nat>)
    ensures r.None? <==> !HasId(links, id)
    ensures r.Some? ==> FirstWithId(links, id, r.value)
  {
    if |links| == 0 then None
    else if links[0].id == id then Some(0)
    else match FindIndex(links[1..], id)
      case None =>
        assert forall i :: 1 <= i < |links| ==> links[i] == links[1..][i - 1];
        None
      case Some(k) =>
        assert links[k + 1] == links[1..][k];
        assert forall j :: 1 <= j < k + 1 ==> links[j] == links[1..][j - 1];
        Some(k + 1)
  }

  /** The values `openEditModal` writes into the edit form. */
  datatype EditForm = EditForm(name: string, url: string, category: string)

  /** Where the session stands after `openEditModal`, and the values put in the form. */
  datatype EditOpening = EditOpening(session: Option<int>, fields: Option<EditForm>)

  /** `openEditModal(id)`: for a present id the session opens on it and the form
      shows the first such record's name, URL and category; for an absent id
      nothing changes, not even an already open session. */
  function OpenEdit(links: seq<Link>, session: Option<int>, id: int): (r: EditOpening)
    ensures !HasId(links, id) ==> r == EditOpening(session, None)
    ensures forall k :: FirstWithId(links, id, k) ==>
              r == EditOpening(Some(id), Some(EditForm(links[k].name, links[k].url, links[k].category)))
  {
    match FindIndex(links, id)
    case None => EditOpening(session, None)
    case Some(k) => EditOpening(Some(id), Some(EditForm(links[k].name, links[k].url, links[k].category)))
  }

  /** `closeEditModal`: the session is closed whatever it was. */
  function CloseEdit(session: Option<int>): (r: Option<int>)
    ensures r.None?
  {
    None
  }

  /** `!currentEditId` is false: a session is open on a non-zero id (JavaScript
      treats the id 0 as falsy). */
  function SessionActive(session: Option<int>): (b: bool)
    ensures b ==> session.Some?
    ensures session == None ==> !b
    ensures session == Some(0) ==> !b
    ensures session.Some? && session.value != 0 ==> b
  {
    session.Some? && session.value != 0
  }

  datatype EditResult = EditResult(links: seq<Link>, session: Option<int>)

  /** `saveEdit`: with an active session on a present id, the first record with that
      id gets the form's name, URL and category and the lookup's badge class, its id
      and date and every other record stay as they were, and the session closes.
      Without an active session, or with the id gone, store and session are unchanged. */
  function SaveEdit(links: seq<Link>, session: Option<int>, form: EditForm): (r: EditResult)
    ensures !SessionActive(session) ==> r == EditResult(links, session)
    ensures SessionActive(session) && !HasId(links, session.value) ==> r == EditResult(links, session)
    ensures SessionActive(session) ==> forall k :: FirstWithId(links, session.value, k) ==>
              && r.session.None?
              && |r.links| == |links|
              && r.links[k] == links[k].(name := form.name, url := form.url, category := form.category,
                                         badgeClass := Badge(form.category))
              && forall j :: 0 <= j < |links| && j != k ==> r.links[j] == links[j]
  {
    if !SessionActive(session) then EditResult(links, session)
    else match FindIndex(links, session.value)
      case None => EditResult(links, session)
      case Some(k) =>
        var edited := links[k].(name := form.name, url := form.url, category := form.category,
                                badgeClass := Badge(form.category));
        EditResult(links[k := edited], CloseEdit(session))
  }

  /** Saving an edit keeps badge consistency, and the edited record is consistent
      whatever it held before. */
  lemma EditPreservesConsistency(links: seq<Link>, session: Option<int>, form: EditForm)
    requires AllConsistent(links)
    ensures AllConsistent(SaveEdit(links, session, form).links)
  {
    var r := SaveEdit(links, session, form);
    if SessionActive(session) {
      match FindIndex(links, session.value)
      case None =>
      case Some(k) =>
        forall i | 0 <= i < |r.links|
          ensures BadgeConsistent(r.links[i])
        {
        }
    }
  }

  /** Opening the editor on a present non-zero id and saving the values it shows
      leaves a consistent store exactly as it was and closes the session. */
  lemma {:induction false} OpenThenSaveUnchanged(links: seq<Link>, session: Option<int>, id: int)
    requires AllConsistent(links) && HasId(links, id) && id != 0
    ensures var shown := OpenEdit(links, session, id);
            shown.fields.Some? && SaveEdit(links, shown.session, shown.fields.value) == EditResult(links, None)
  {
    var k := FindIndex(links, id).value;
    var shown := OpenEdit(links, session, id);
    assert shown.session == Some(id);
    var r := SaveEdit(links, shown.session, shown.fields.value);
    assert BadgeConsistent(links[k]);
    assert r.links == links;
  }

  /** A session on the id 0 never saves, even when a record with id 0 exists:
      `!currentEditId` holds for 0. */
  lemma ZeroIdNeverSaves(links: seq<Link>, form: EditForm)
    ensures SaveEdit(links, Some(0), form) == EditResult(links, Some(0))
  {
  }
}
