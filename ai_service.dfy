/** The title-suggestion service: the keyword rules that produce a mock
    title, the guard on the description, and the fall-back to the mock
    title whenever the remote model is not configured or its call fails. */
module AiService {
  import opened Wrappers
  import opened JsString

  /** One keyword rule: any of the keywords selects the title. */
  datatype Rule = Rule(keywords: seq<string>, title: string)

  /** The rules in the order they are tried. */
  const Rules: seq<Rule> := [
    Rule(["fix", "bug", "error"], "Fix authentication issue"),
    Rule(["role", "permission", "access"], "Implement role-based access control"),
    Rule(["ui", "interface", "design"], "Improve task list UI"),
    Rule(["optimize", "performance"], "Optimize task performance"),
    Rule(["log", "activity"], "Add task activity logging")
  ]

  const DefaultTitle := "Update task functionality"

  /** Every title the mock can give: the rules' titles and the default. */
  const MockTitles: set<string> :=
    {Rules[0].title, Rules[1].title, Rules[2].title, Rules[3].title, Rules[4].title, DefaultTitle}

  /** The mock title: keyword tests on the lower-cased description, in a
      fixed order, the first match winning. */
  function GetMockTitle(description: string): (title: string)
    ensures title in MockTitles
  {
    var text := ToLower(description);
    if Includes(text, "fix") || Includes(text, "bug") || Includes(text, "error") then
      "Fix authentication issue"
    else if Includes(text, "role") || Includes(text, "permission") || Includes(text, "access") then
      "Implement role-based access control"
    else if Includes(text, "ui") || Includes(text, "interface") || Includes(text, "design") then
      "Improve task list UI"
    else if Includes(text, "optimize") || Includes(text, "performance") then
      "Optimize task performance"
    else if Includes(text, "log") || Includes(text, "activity") then
      "Add task activity logging"
    else
      "Update task functionality"
  }

  /** Some keyword of the list occurs in the text. */
  predicate AnyIncluded(text: string, keywords: seq<string>) {
    keywords != [] && (Includes(text, keywords[0]) || AnyIncluded(text, keywords[1..]))
  }

  predicate RuleMatches(rule: Rule, text: string) {
    AnyIncluded(text, rule.keywords)
  }

  /** Reference definition: the title of the first rule that matches. */
  function FirstMatch(rules: seq<Rule>, text: string): (title: string)
    ensures title == DefaultTitle || exists i | 0 <= i < |rules| :: title == rules[i].title
  {
    if rules == [] then DefaultTitle
    else if RuleMatches(rules[0], text) then rules[0].title
    else FirstMatch(rules[1..], text)
  }

  /** The if-chain is the first-match reading of the rule table. */
  lemma MockTitleIsFirstMatch(description: string)
    ensures GetMockTitle(description) == FirstMatch(Rules, ToLower(description))
  {
    var text := ToLower(description);
    FiveRules(Rules, text);
    ThreeKeywords(text, "fix", "bug", "error");
    ThreeKeywords(text, "role", "permission", "access");
    ThreeKeywords(text, "ui", "interface", "design");
    TwoKeywords(text, "optimize", "performance");
    TwoKeywords(text, "log", "activity");
  }

  /** First match over a table of five rules, unrolled. */
  lemma FiveRules(rules: seq<Rule>, text: string)
    requires |rules| == 5
    ensures FirstMatch(rules, text) ==
      if RuleMatches(rules[0], text) then rules[0].title
      else if RuleMatches(rules[1], text) then rules[1].title
      else if RuleMatches(rules[2], text) then rules[2].title
      else if RuleMatches(rules[3], text) then rules[3].title
      else if RuleMatches(rules[4], text) then rules[4].title
      else DefaultTitle
  {
    var r := rules;
    assert r[4..][1..] == [] && r[3..][1..] == r[4..] && r[2..][1..] == r[3..] && r[1..][1..] == r[2..];
    assert r[4..][0] == r[4] && r[3..][0] == r[3] && r[2..][0] == r[2] && r[1..][0] == r[1];
    assert FirstMatch(r[4..], text) == if RuleMatches(r[4], text) then r[4].title else DefaultTitle;
    assert FirstMatch(r[3..], text) == if RuleMatches(r[3], text) then r[3].title else FirstMatch(r[4..], text);
    assert FirstMatch(r[2..], text) == if RuleMatches(r[2], text) then r[2].title else FirstMatch(r[3..], text);
    assert FirstMatch(r[1..], text) == if RuleMatches(r[1], text) then r[1].title else FirstMatch(r[2..], text);
  }

  lemma ThreeKeywords(text: string, a: string, b: string, c: string)
    ensures AnyIncluded(text, [a, b, c]) == (Includes(text, a) || Includes(text, b) || Includes(text, c))
  {
    assert [a, b, c][1..] == [b, c] && [b, c][1..] == [c] && [c][1..] == [];
    assert AnyIncluded(text, [c]) == Includes(text, c);
    assert AnyIncluded(text, [b, c]) == (Includes(text, b) || AnyIncluded(text, [c]));
  }

  lemma TwoKeywords(text: string, a: string, b: string)
    ensures AnyIncluded(text, [a, b]) == (Includes(text, a) || Includes(text, b))
  {
    assert [a, b][1..] == [b] && [b][1..] == [];
    assert AnyIncluded(text, [b]) == Includes(text, b);
  }

  /** In a table of distinct titles, none the default, rule k's title
      comes out exactly when rule k matches and no earlier rule does, and
      the default exactly when no rule matches. */
  lemma {:induction false} FirstMatchIsFirstMatchingRule(rules: seq<Rule>, text: string, k: nat)
    requires forall i, j | 0 <= i < j < |rules| :: rules[i].title != rules[j].title
    requires forall i | 0 <= i < |rules| :: rules[i].title != DefaultTitle
    ensures k < |rules| ==>
      (FirstMatch(rules, text) == rules[k].title <==>
        RuleMatches(rules[k], text) && forall j | 0 <= j < k :: !RuleMatches(rules[j], text))
    ensures FirstMatch(rules, text) == DefaultTitle <==> forall j | 0 <= j < |rules| :: !RuleMatches(rules[j], text)
  {
    if rules != [] {
      var tail := rules[1..];
      assert forall i | 0 <= i < |tail| :: tail[i] == rules[i + 1];
      FirstMatchIsFirstMatchingRule(tail, text, if k > 0 then k - 1 else 0);
      if !RuleMatches(rules[0], text) {
        assert FirstMatch(rules, text) == FirstMatch(tail, text);
        if k == 0 {
          assert FirstMatch(tail, text) != rules[0].title;
        }
      }
    }
  }

  /** Rule k's title is the mock title exactly when one of its keywords
      occurs in the lower-cased description and no keyword of an earlier
      rule does; the fallback title exactly when no keyword occurs. */
  lemma MockTitleFollowsRuleOrder(description: string, k: nat)
    requires k < |Rules|
    ensures GetMockTitle(description) == Rules[k].title <==>
      RuleMatches(Rules[k], ToLower(description)) &&
      forall j | 0 <= j < k :: !RuleMatches(Rules[j], ToLower(description))
    ensures GetMockTitle(description) == DefaultTitle <==>
      forall j | 0 <= j < |Rules| :: !RuleMatches(Rules[j], ToLower(description))
  {
    MockTitleIsFirstMatch(description);
    RuleTitlesDistinct();
    FirstMatchIsFirstMatchingRule(Rules, ToLower(description), k);
  }

  /** The rule titles differ from each other and from the default. */
  lemma RuleTitlesDistinct()
    ensures forall i, j | 0 <= i < j < |Rules| :: Rules[i].title != Rules[j].title
    ensures forall i | 0 <= i < |Rules| :: Rules[i].title != DefaultTitle
  {
    forall i | 0 <= i < |Rules|
      ensures (|Rules[i].title|, Rules[i].title[0]) in {(24, 'F'), (35, 'I'), (20, 'I'), (25, 'O'), (25, 'A')}
    {
    }
  }

  /** Matching ignores ASCII case: a description and its lower-cased form
      get the same title. */
  lemma MockTitleIgnoresCase(description: string)
    ensures GetMockTitle(ToLower(description)) == GetMockTitle(description)
  {
    ToLowerIdempotent(description);
  }

  /** What the remote model call came to: a reply's text, or any failure
      (network error, non-ok status, unreadable reply). */
  datatype RemoteOutcome = RemoteTitle(content: string) | RemoteFailed

  const ShortDescription := "Description must be at least 10 characters"

  /** A description that is missing, empty, or shorter than ten UTF-16 code
      units once trimmed is refused before anything else. */
  predicate TooShort(description: Option<string>)
    ensures !TooShort(description) ==> description.Some? && |Trim(description.value)| >= 5
    ensures description.Some? && |Trim(description.value)| >= 10 ==> !TooShort(description)
    ensures description.Some? && AllWhitespace(description.value) ==> TooShort(description)
  {
    !Truthy(description) || Utf16Length(Trim(description.value)) < 10
  }

  /** suggestTaskTitle: the guard, then the mock title when no API key is
      configured, else the trimmed remote reply or, on any failure, the
      mock title. `remote` is consulted only when a key is configured. */
  function SuggestTaskTitle(description: Option<string>, apiKey: Option<string>, remote: RemoteOutcome): (r: Result<string, string>)
    ensures r.Err? <==> TooShort(description)
    ensures r.Err? ==> r.error == ShortDescription
    ensures r.Ok? && (!Truthy(apiKey) || remote.RemoteFailed?) ==> r.value == GetMockTitle(description.value)
    ensures r.Ok? && Truthy(apiKey) && remote.RemoteTitle? ==> r.value == Trim(remote.content)
  {
    if TooShort(description) then
      Err(ShortDescription)
    else if !Truthy(apiKey) then
      Ok(GetMockTitle(description.value))
    else
      match remote
      case RemoteTitle(content) => Ok(Trim(content))
      case RemoteFailed => Ok(GetMockTitle(description.value))
  }

  /** Without a key the remote outcome does not matter, and with a long
      enough description the service never reports an error. */
  lemma SuggestionNeverFailsPastGuard(description: Option<string>, apiKey: Option<string>, a: RemoteOutcome, b: RemoteOutcome)
    requires !TooShort(description)
    ensures SuggestTaskTitle(description, apiKey, a).Ok?
    ensures !Truthy(apiKey) ==> SuggestTaskTitle(description, apiKey, a) == SuggestTaskTitle(description, apiKey, b)
    ensures !Truthy(apiKey) ==> SuggestTaskTitle(description, apiKey, a).value in MockTitles
  {
  }
}
