/** The category-label to badge-class lookup that `addLink` (manual category) and
    `saveEdit` each write out as an object literal. */
module Badges {
  import Classifier
  import Text

  const DefaultBadge := "bg-other"

  /** The object literal in `addLink`. */
  const AddBadges: map<string, string> := map[
    "Stream" := "bg-stream", "AI Chatbot" := "bg-ai", "Dev" := "bg-dev",
    "Social" := "bg-social", "Work" := "bg-work", "Cloud" := "bg-cloud"
  ]

  /** The object literal in `saveEdit`: the same six entries plus "Other". */
  const EditBadges: map<string, string> := map[
    "Stream" := "bg-stream", "AI Chatbot" := "bg-ai", "Dev" := "bg-dev",
    "Social" := "bg-social", "Work" := "bg-work", "Cloud" := "bg-cloud", "Other" := "bg-other"
  ]

  /** The six labels with a badge of their own. */
  const KnownLabels: set<string> := {"Stream", "AI Chatbot", "Dev", "Social", "Work", "Cloud"}

  /** Every badge class the application uses. */
  const BadgeClasses: set<string> :=
    {"bg-stream", "bg-ai", "bg-dev", "bg-social", "bg-work", "bg-cloud", "bg-other"}

  /** `table[name] || "bg-other"`, reading only the table's own entries: a key with
      a non-empty class gets that class, and anything else the default. */
  function Lookup(table: map<string, string>, name: string): (r: string)
    ensures r == DefaultBadge || (name in table && r == table[name])
    ensures name in table && table[name] != "" ==> r == table[name]
    ensures name !in table ==> r == DefaultBadge
  {
    if name in table && table[name] != "" then table[name] else DefaultBadge
  }

  /** The badge class of a category name: one of the seven classes, and the
      default exactly for labels outside the six known ones. Both object literals
      give the same answer for every name. */
  function Badge(name: string): (b: string)
    ensures b in BadgeClasses
    ensures b == DefaultBadge <==> name !in KnownLabels
    ensures b == Lookup(EditBadges, name)
    ensures name in AddBadges ==> b == AddBadges[name]
  {
    Lookup(AddBadges, name)
  }

  /** Whatever `detectCategory` returns carries the badge class the lookup assigns
      to its name, so auto-detected and manually chosen categories never disagree. */
  lemma DetectAgreesWithBadge(url: string)
    ensures Classifier.Detect(url).badge == Badge(Classifier.Detect(url).name)
  {
    match Classifier.FirstRule(Text.Lower(url), 0)
    case None =>
    case Some(i) => RuleBadgeAgrees(i);
  }

  /** Each rule of the classifier pairs its label with the badge the lookup gives it. */
  lemma RuleBadgeAgrees(i: nat)
    requires i < |Classifier.Rules|
    ensures Classifier.Rules[i].category.badge == Badge(Classifier.Rules[i].category.name)
  {
    var rules := Classifier.Rules;
    if i == 0 {
      assert rules[0].category == Classifier.Category("Stream", "bg-stream");
    } else if i == 1 {
      assert rules[1].category == Classifier.Category("AI Chatbot", "bg-ai");
    } else if i == 2 {
      assert rules[2].category == Classifier.Category("Dev", "bg-dev");
    } else if i == 3 {
      assert rules[3].category == Classifier.Category("Work", "bg-work");
    } else if i == 4 {
      assert rules[4].category == Classifier.Category("Cloud", "bg-cloud");
    } else {
      assert rules[5].category == Classifier.Category("Social", "bg-social");
    }
  }

  // ---------------------------------------------------------------------------
  // The lookup as the source writes it: an object literal indexed by an
  // arbitrary name also finds the members every object inherits from
  // `Object.prototype`, all of which are truthy, so `|| "bg-other"` does not
  // apply to them.

  /** The property names every plain object inherits in a browser. */
  const ObjectPrototypeKeys: set<string> := {
    "constructor", "hasOwnProperty", "isPrototypeOf", "propertyIsEnumerable",
    "toLocaleString", "toString", "valueOf", "__proto__",
    "__defineGetter__", "__defineSetter__", "__lookupGetter__", "__lookupSetter__"
  }

  /** A JavaScript property read on an object literal: an own string, an inherited
      member (a function, or the prototype object itself), or `undefined`. */
  datatype JsValue = Str(s: string) | Inherited(key: string) | Undefined {
    predicate Truthy() {
      match this
      case Str(s) => s != ""
      case Inherited(_) => true
      case Undefined => false
    }
  }

  /** `table[name]` on an object literal whose own properties are `table`. */
  function JsGet(table: map<string, string>, name: string): (v: JsValue)
    ensures v.Str? <==> name in table
    ensures v.Inherited? <==> name !in table && name in ObjectPrototypeKeys
    ensures name in table ==> v == Str(table[name])
    ensures v.Inherited? ==> v.key == name
  {
    if name in table then Str(table[name])
    else if name in ObjectPrototypeKeys then Inherited(name)
    else Undefined
  }

  /** `table[name] || "bg-other"` exactly as written. */
  function BadgeAsWritten(table: map<string, string>, name: string): (v: JsValue)
    ensures v.Truthy()
    ensures name !in ObjectPrototypeKeys ==> v == Str(Lookup(table, name))
    ensures name !in table && name in ObjectPrototypeKeys ==> v == Inherited(name)
  {
    var v := JsGet(table, name);
    if v.Truthy() then v else Str(DefaultBadge)
  }

  /** The source lookup and the own-entry lookup agree on every label that is not
      an `Object.prototype` member, for both object literals. */
  lemma AsWrittenAgreesOffPrototype(name: string)
    requires name !in ObjectPrototypeKeys
    ensures BadgeAsWritten(AddBadges, name) == Str(Badge(name))
    ensures BadgeAsWritten(EditBadges, name) == Str(Badge(name))
  {
  }

  /** The label "toString" gets the inherited `toString` function as its badge class
      instead of "bg-other"; the own-entry lookup gives "bg-other". */
  lemma PrototypeLabelLeaks()
    ensures BadgeAsWritten(AddBadges, "toString") == Inherited("toString")
    ensures BadgeAsWritten(EditBadges, "toString") == Inherited("toString")
    ensures Badge("toString") == DefaultBadge
  {
  }
}
