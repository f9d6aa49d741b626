/** `detectCategory`: keyword-based auto-detection of a link's category. */
module Classifier {
  import opened Wrappers
  import opened Text

  /** The `{ name, class }` object the classifier returns: a category label and its badge class. */
  datatype Category = Category(name: string, badge: string)

  /** One `if` of `detectCategory`: the category it returns and the keywords it tests. */
  datatype Rule = Rule(category: Category, keywords: seq<string>)

  /** The rules in the order the source tests them; the first that fires wins. */
  const Rules: seq<Rule> := [
    Rule(Category("Stream", "bg-stream"), ["youtube", "twitch", "netflix", "disney", "hulu"]),
    Rule(Category("AI Chatbot", "bg-ai"), ["chatgpt", "openai", "gemini", "bard", "claude", "poe.com"]),
    Rule(Category("Dev", "bg-dev"), ["github", "stackoverflow", "gitlab", "codepen", "localhost"]),
    Rule(Category("Work", "bg-work"), ["docs.google", "drive", "notion", "trello", "slack", "office"]),
    Rule(Category("Cloud", "bg-cloud"), ["aws", "azure", "dropbox", "onedrive"]),
    Rule(Category("Social", "bg-social"), ["instagram", "facebook", "twitter", "x.com", "linkedin"])
  ]

  const Stream := Rules[0].category
  const Other := Category("Other", "bg-other")

  /** The rule's `lower.includes(..) || ...` condition holds. */
  predicate Fires(rule: Rule, lower: string) {
    exists k :: k in rule.keywords && Contains(lower, k)
  }

  /** Rule `i` is the earliest rule that fires on `lower`. */
  ghost predicate FirstFiring(lower: string, i: int) {
    && 0 <= i < |Rules|
    && Fires(Rules[i], lower)
    && forall j :: 0 <= j < i ==> !Fires(Rules[j], lower)
  }

  /** Index of the first rule at or after `from` that fires on `lower`. */
  function FirstRule(lower: string, from: nat): (r: Option<nat>)
    requires from <= |Rules|
    ensures r.Some? ==> from <= r.value < |Rules| && Fires(Rules[r.value], lower)
    ensures r.Some? ==> forall j :: from <= j < r.value ==> !Fires(Rules[j], lower)
    ensures r.None? <==> forall j :: from <= j < |Rules| ==> !Fires(Rules[j], lower)
    decreases |Rules| - from
  {
    if from == |Rules| then None
    else if Fires(Rules[from], lower) then Some(from)
    else FirstRule(lower, from + 1)
  }

  /** `detectCategory(url)`: the category of the earliest rule with a keyword that
      occurs in the lowercased URL, and `Other` exactly when no keyword of any rule
      occurs. */
  function Detect(url: string): (c: Category)
    ensures c == Other <==> forall i :: 0 <= i < |Rules| ==> !Fires(Rules[i], Lower(url))
    ensures c != Other ==> exists i :: FirstFiring(Lower(url), i) && c == Rules[i].category
  {
    match FirstRule(Lower(url), 0)
    case None => Other
    case Some(i) => Rules[i].category
  }

  /** Classification ignores letter case. */
  lemma DetectCaseInsensitive(url: string)
    ensures Detect(url) == Detect(Lower(url))
  {
    LowerIdempotent(url);
  }

  /** A keyword of the first rule that fires decides the result, whatever later rules say. */
  lemma {:induction false} DetectPrecedence(url: string, i: nat, k: string)
    requires i < |Rules| && k in Rules[i].keywords && Contains(Lower(url), k)
    requires forall j :: 0 <= j < i ==> !Fires(Rules[j], Lower(url))
    ensures Detect(url) == Rules[i].category
  {
    assert Fires(Rules[i], Lower(url));
    assert FirstRule(Lower(url), 0) == Some(i) by {
      var r := FirstRule(Lower(url), 0);
      assert r.Some?;
    }
  }

  /** Any URL that contains "youtube" in any mix of upper and lower case is a Stream. */
  lemma YoutubeIsStream(url: string, k: string)
    requires Contains(url, k) && Lower(k) == "youtube"
    ensures Detect(url) == Stream
  {
    ContainsLower(url, k);
    DetectPrecedence(url, 0, "youtube");
  }

  /** "github.com/youtube-dl" names a Dev host but is classified Stream: the Stream
      rule comes first. */
  lemma StreamBeatsDev()
    ensures Detect("github.com/youtube-dl") == Stream
    ensures Contains(Lower("github.com/youtube-dl"), "github")
  {
    var u := "github.com/youtube-dl";
    LowerFixed(u);
    assert u[11..18] == "youtube";
    assert OccursAt(u, "youtube", 11);
    assert u[0..6] == "github";
    assert OccursAt(u, "github", 0);
    ContainsIff(u, "youtube");
    ContainsIff(u, "github");
    DetectPrecedence(u, 0, "youtube");
  }

  /** The Cloud keyword "onedrive" contains the Work keyword "drive", and the Work
      rule comes first, so a URL containing "onedrive" is never classified Cloud:
      it is Work, or a category of an even earlier rule. */
  lemma OnedriveNeverCloud(url: string)
    requires Contains(Lower(url), "onedrive")
    ensures Detect(url) != Rules[4].category
    ensures exists j :: 0 <= j <= 3 && Detect(url) == Rules[j].category
  {
    var lower := Lower(url);
    ContainsIff(lower, "onedrive");
    var i :| OccursAt(lower, "onedrive", i);
    assert lower[i + 3..i + 8] == lower[i..i + 8][3..];
    assert OccursAt(lower, "drive", i + 3);
    ContainsIff(lower, "drive");
    assert Fires(Rules[3], lower) by {
      assert "drive" in Rules[3].keywords;
    }
    var r := FirstRule(lower, 0);
    assert r.Some? && r.value <= 3;
  }
}
