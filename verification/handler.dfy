/**
 The reply selector (`handleEvent` in index.js): for one webhook event,
 choose the reply from the first keyword rule that matches the message text
 and has a recognised type, or fall back to the prompt. The SDK call
 `replyMessage(replyToken, messages)` is replaced by the returned value.
 */
module Handler {
  import opened Wrappers
  import opened Strings
  import opened Config
  import Flex

  /** The `message` of an event: its type and, for text messages, its text. */
  datatype Message = Message(kind: string, text: string)

  /** One webhook event: its type, the reply token and its message. */
  datatype Event = Event(kind: string, replyToken: string, message: Message)

  /** An image message; `handleEvent` sends the same URL as original and preview. */
  datatype ImageMessage = ImageMessage(originalContentUrl: string, previewImageUrl: string)

  /** The messages of one reply. */
  datatype Outbound =
    | Images(messages: seq<ImageMessage>)
    | FlexMessage(altText: string, contents: Flex.Bubble)
    | TextMessage(text: string)

  /** The outcome of one event: nothing (`null`), or messages for a reply token. */
  datatype Reply = NoReply | Reply(replyToken: string, body: Outbound)

  /** Fallback text when the prompt is empty. */
  const DefaultGreeting: string := "สวัสดีค่ะ"

  /** Alternative text of a flex card whose rule has no text. */
  const NewMessageAlt: string := "มีข้อความใหม่"

  /** Specification of a match: some trigger, lower-cased, occurs in the
      (already lower-cased) text. */
  ghost predicate Triggered(rule: Rule, text: string) {
    exists i :: 0 <= i < |rule.triggers| && IsSubstring(Lower(rule.triggers[i]), text)
  }

  /** Whether some trigger, once lower-cased, is contained in `text`; the
      triggers are tried in order and the first hit ends the search. */
  function AnyTrigger(triggers: seq<string>, text: string): (b: bool)
    ensures b <==> exists i :: 0 <= i < |triggers| && IsSubstring(Lower(triggers[i]), text)
  {
    if triggers == [] then false
    else Includes(text, Lower(triggers[0])) || AnyTrigger(triggers[1..], text)
  }

  /** Whether `rule` matches the lower-cased `text`. */
  function Matches(rule: Rule, text: string): (b: bool)
    ensures b <==> Triggered(rule, text)
  {
    AnyTrigger(rule.triggers, text)
  }

  /** A type the selector acts on: `'image'`, or any type starting with `'flex'`. */
  predicate Recognised(rule: Rule) {
    rule.kind == Some("image") || (rule.kind.Some? && StartsWith(rule.kind.value, "flex"))
  }

  /** A rule that ends the scan for `text`: it matches and its type is recognised. */
  ghost predicate Decisive(rule: Rule, text: string) {
    Triggered(rule, text) && Recognised(rule)
  }

  /**
   The loop over `settings.keywords` from position `from` on: the index of
   the first decisive rule, if any. A matching rule whose type is not
   recognised does not stop the loop.
   */
  function FirstDecisive(rules: seq<Rule>, text: string, from: nat): (r: Option<nat>)
    requires from <= |rules|
    ensures r.Some? ==> from <= r.value < |rules| && Decisive(rules[r.value], text)
    ensures r.Some? ==> forall j :: from <= j < r.value ==> !Decisive(rules[j], text)
    ensures r.None? ==> forall j :: from <= j < |rules| ==> !Decisive(rules[j], text)
    decreases |rules| - from
  {
    if from == |rules| then None
    else if Matches(rules[from], text) && Recognised(rules[from]) then Some(from)
    else FirstDecisive(rules, text, from + 1)
  }

  /** One image message per URL, in order, each showing that URL both as the
      original and as the preview. */
  function ImageMessages(urls: seq<string>): (ms: seq<ImageMessage>)
    ensures |ms| == |urls|
    ensures forall i :: 0 <= i < |urls| ==>
      ms[i].originalContentUrl == urls[i] && ms[i].previewImageUrl == urls[i]
  {
    if urls == [] then []
    else [ImageMessage(urls[0], urls[0])] + ImageMessages(urls[1..])
  }

  /** The reply a decisive rule produces: its images, or a flex card. */
  function RuleReply(rule: Rule): (m: Outbound)
    requires Recognised(rule)
    ensures m.Images? <==> rule.kind == Some("image")
    ensures m.FlexMessage? <==> rule.kind != Some("image")
    ensures m.Images? ==> |m.messages| == |rule.images|
    ensures m.Images? ==> forall i :: 0 <= i < |rule.images| ==>
      m.messages[i].originalContentUrl == rule.images[i] && m.messages[i].previewImageUrl == rule.images[i]
    ensures m.FlexMessage? && rule.text != "" ==> m.altText == rule.text
    ensures m.FlexMessage? && rule.text == "" ==> m.altText == "มีข้อความใหม่"
    ensures m.FlexMessage? ==> m.contents == Flex.GenerateFlex(rule.kind.value, rule.text, rule.images)
    ensures m.FlexMessage? ==> Flex.ShownImages(m.contents) == rule.images
    ensures m.FlexMessage? ==>
      Flex.ShownTitle(m.contents) == Some(if rule.text == "" then Flex.NoTitle else rule.text)
  {
    if rule.kind == Some("image") then Images(ImageMessages(rule.images))
    else
      Flex.GenerateFlexRoundTrip(rule.kind.value, rule.text, rule.images);
      FlexMessage(if rule.text == "" then NewMessageAlt else rule.text,
                     Flex.GenerateFlex(rule.kind.value, rule.text, rule.images))
  }

  /** The fallback text: the prompt, or the default greeting when it is empty. */
  function Fallback(s: Settings): (m: Outbound)
    ensures m.TextMessage? && m.text != ""
    ensures s.prompt != "" ==> m.text == s.prompt
    ensures s.prompt == "" ==> m.text == "สวัสดีค่ะ"
  {
    TextMessage(if s.prompt == "" then DefaultGreeting else s.prompt)
  }

  /** The reply for lower-cased `text` under settings `s`. */
  function Respond(s: Settings, text: string): (m: Outbound)
    ensures m.TextMessage? <==> forall j :: 0 <= j < |s.keywords| ==> !Decisive(s.keywords[j], text)
  {
    match FirstDecisive(s.keywords, text, 0)
    case Some(i) => RuleReply(s.keywords[i])
    case None => Fallback(s)
  }

  /** `handleEvent(event)`. */
  function HandleEvent(s: Settings, e: Event): (r: Reply)
    ensures r.NoReply? <==> e.kind != "message" || e.message.kind != "text"
    ensures r.Reply? ==> r.replyToken == e.replyToken
  {
    if e.kind != "message" || e.message.kind != "text" then NoReply
    else Reply(e.replyToken, Respond(s, Lower(e.message.text)))
  }

  /**
   First match wins: when rule `i` is decisive and no earlier rule is, the
   reply is rule `i`'s, whatever the rules after it say.
   */
  lemma FirstMatchWins(s: Settings, text: string, i: nat)
    requires i < |s.keywords| && Decisive(s.keywords[i], text)
    requires forall j :: 0 <= j < i ==> !Decisive(s.keywords[j], text)
    ensures Respond(s, text) == RuleReply(s.keywords[i])
  {
    var r := FirstDecisive(s.keywords, text, 0);
    assert r.Some? && r.value == i by {
      assert r.Some? ==> !(r.value < i) && !(i < r.value);
    }
  }

  /** Fall-through: when no rule is decisive, the reply is the prompt text. */
  lemma NoDecisiveRuleFallsBack(s: Settings, text: string)
    requires forall j :: 0 <= j < |s.keywords| ==> !Decisive(s.keywords[j], text)
    ensures Respond(s, text) == Fallback(s)
  {
  }

  /** Once rule `i` decides, the rules after it never affect the reply: they
      can be replaced by any others, or dropped. */
  lemma LaterRulesIgnored(s: Settings, text: string, i: nat, more: seq<Rule>)
    requires i < |s.keywords| && Decisive(s.keywords[i], text)
    ensures Respond(s.(keywords := s.keywords[..i + 1] + more), text) == Respond(s, text)
  {
    var f := FirstDecisive(s.keywords, text, 0).value;
    var s' := s.(keywords := s.keywords[..i + 1] + more);
    assert forall k :: 0 <= k <= i ==> s'.keywords[k] == s.keywords[k];
    FirstMatchWins(s, text, f);
    FirstMatchWins(s', text, f);
  }

  /**
   A rule that is not decisive for the text (it does not match, or it
   matches but its type is neither `image` nor `flex...`, or it has no type)
   can be deleted without changing the reply: the scan simply moves past it.
   */
  lemma UndecisiveRuleIrrelevant(s: Settings, text: string, j: nat)
    requires j < |s.keywords| && !Decisive(s.keywords[j], text)
    ensures Respond(s.(keywords := s.keywords[..j] + s.keywords[j + 1..]), text) == Respond(s, text)
  {
    var rules := s.keywords;
    var rules' := rules[..j] + rules[j + 1..];
    var s' := s.(keywords := rules');
    assert |rules'| == |rules| - 1;
    assert forall k :: 0 <= k < j ==> rules'[k] == rules[k];
    assert forall k :: j <= k < |rules'| ==> rules'[k] == rules[k + 1];
    match FirstDecisive(rules, text, 0)
    case Some(i) =>
      FirstMatchWins(s, text, i);
      if i < j {
        FirstMatchWins(s', text, i);
      } else {
        assert i != j;
        forall k | 0 <= k < i - 1
          ensures !Decisive(rules'[k], text)
        {
          if k >= j {
            assert rules'[k] == rules[k + 1];
          }
        }
        FirstMatchWins(s', text, i - 1);
      }
    case None =>
      forall k | 0 <= k < |rules'|
        ensures !Decisive(rules'[k], text)
      {
        if k >= j {
          assert rules'[k] == rules[k + 1];
        }
      }
      NoDecisiveRuleFallsBack(s, text);
      NoDecisiveRuleFallsBack(s', text);
  }

  /** An empty trigger matches every text. */
  lemma EmptyTriggerMatchesAll(rule: Rule, text: string)
    requires "" in rule.triggers
    ensures Matches(rule, text)
  {
    var i :| 0 <= i < |rule.triggers| && rule.triggers[i] == "";
    EmptyIsEverywhere(text);
    assert Lower(rule.triggers[i]) == "";
  }

  /** Messages whose texts differ only in letter case get the same reply. */
  lemma CaseInsensitive(s: Settings, e: Event, t: string)
    requires Lower(t) == Lower(e.message.text)
    ensures HandleEvent(s, e.(message := e.message.(text := t))) == HandleEvent(s, e)
  {
  }

  /** The triggers' own letter case does not matter either: lower-casing the
      configured triggers leaves every match unchanged. */
  lemma TriggerCaseIrrelevant(rule: Rule, text: string)
    ensures Triggered(rule.(triggers := seq(|rule.triggers|, i requires 0 <= i < |rule.triggers| => Lower(rule.triggers[i]))), text)
        <==> Triggered(rule, text)
  {
    var lowered := seq(|rule.triggers|, i requires 0 <= i < |rule.triggers| => Lower(rule.triggers[i]));
    forall i | 0 <= i < |rule.triggers|
      ensures Lower(lowered[i]) == Lower(rule.triggers[i])
    {
      LowerIdempotent(rule.triggers[i]);
    }
  }

  /** When loading the settings file fails at start-up, the in-memory
      defaults stay in force; they have no rules, so every text message is
      answered with the initial prompt. */
  lemma InitialSettingsGreet(e: Event)
    requires e.kind == "message" && e.message.kind == "text"
    ensures HandleEvent(InitialSettings, e)
         == Reply(e.replyToken, TextMessage("สวัสดีค่ะ มีอะไรให้ช่วยไหมคะ"))
  {
  }

  /**
   Saving only a prompt never changes a reply a rule decides; when no rule
   decides, a truthy saved prompt becomes the reply text.
   */
  lemma PromptSaveOnlyAffectsFallback(s: Settings, prompt: Option<string>, text: string)
    ensures (exists j :: 0 <= j < |s.keywords| && Decisive(s.keywords[j], text))
        ==> Respond(Merge(s, prompt, None), text) == Respond(s, text)
    ensures Truthy(prompt) && (forall j :: 0 <= j < |s.keywords| ==> !Decisive(s.keywords[j], text))
        ==> Respond(Merge(s, prompt, None), text) == TextMessage(prompt.value)
  {
  }

  /** The rules of the example below: a `text` rule, then an `image` rule,
      both triggered by "โปร". */
  const ExampleRules: seq<Rule> :=
    [Rule(["โปร"], Some("text"), "hi", []),
     Rule(["โปร", "promotion"], Some("image"), "", ["u1", "u2"])]

  /**
   Example: a matching rule of type `text` is passed over, and the image
   rule after it answers "มีโปรอะไรบ้าง" (which contains the trigger "โปร")
   with one image message per URL.
   */
  lemma UnknownTypeFallsThroughExample(e: Event)
    requires e.kind == "message" && e.message.kind == "text"
    requires e.message.text == "มีโปรอะไรบ้าง"
    ensures HandleEvent(Settings("", ExampleRules, map[]), e)
         == Reply(e.replyToken, Images([ImageMessage("u1", "u1"), ImageMessage("u2", "u2")]))
  {
    var text := e.message.text;
    LowerKeepsLowercase(text);
    ExampleRulesAnswer(text);
  }

  /** The reply to the lower-cased example text under the example rules. */
  lemma ExampleRulesAnswer(text: string)
    requires text == "มีโปรอะไรบ้าง"
    ensures Respond(Settings("", ExampleRules, map[]), text)
         == Images([ImageMessage("u1", "u1"), ImageMessage("u2", "u2")])
  {
    var rules := ExampleRules;
    var promo := rules[1];
    LowerKeepsLowercase("โปร");
    assert Lower(promo.triggers[0]) == "โปร";
    assert OccursAt("โปร", text, 2);
    assert IsSubstring(Lower(promo.triggers[0]), text);
    assert Decisive(rules[1], text);
    assert "text"[0] != "flex"[0];
    assert !StartsWith("text", "flex");
    assert !Recognised(rules[0]);
    FirstMatchWins(Settings("", rules, map[]), text, 1);
    assert ImageMessages(promo.images) == [ImageMessage("u1", "u1"), ImageMessage("u2", "u2")];
  }

  /**
   What `handleEvent` sends when rule `i` is the first to match the
   lower-cased message with a recognised type: for an `image` rule, one image
   message per configured URL in order; for a `flex...` rule, a card that
   shows exactly the rule's images and its title (or the default title),
   with the rule's text (or the default alt text) as alternative text.
   */
  lemma DecidedReplyContent(s: Settings, e: Event, i: nat)
    requires e.kind == "message" && e.message.kind == "text"
    requires i < |s.keywords| && Decisive(s.keywords[i], Lower(e.message.text))
    requires forall j :: 0 <= j < i ==> !Decisive(s.keywords[j], Lower(e.message.text))
    ensures HandleEvent(s, e).Reply? && HandleEvent(s, e).replyToken == e.replyToken
    ensures s.keywords[i].kind == Some("image") ==>
      && HandleEvent(s, e).body.Images?
      && |HandleEvent(s, e).body.messages| == |s.keywords[i].images|
      && forall k :: 0 <= k < |s.keywords[i].images| ==>
           HandleEvent(s, e).body.messages[k] == ImageMessage(s.keywords[i].images[k], s.keywords[i].images[k])
    ensures s.keywords[i].kind != Some("image") ==>
      && HandleEvent(s, e).body.FlexMessage?
      && HandleEvent(s, e).body.altText == (if s.keywords[i].text == "" then "มีข้อความใหม่" else s.keywords[i].text)
      && Flex.ShownImages(HandleEvent(s, e).body.contents) == s.keywords[i].images
      && Flex.ShownTitle(HandleEvent(s, e).body.contents)
         == Some(if s.keywords[i].text == "" then "ไม่มีข้อความ" else s.keywords[i].text)
  {
    FirstMatchWins(s, Lower(e.message.text), i);
  }

  /** What `handleEvent` sends when no rule decides: the prompt, or
      "สวัสดีค่ะ" when the prompt is empty. */
  lemma FallbackReplyContent(s: Settings, e: Event)
    requires e.kind == "message" && e.message.kind == "text"
    requires forall j :: 0 <= j < |s.keywords| ==> !Decisive(s.keywords[j], Lower(e.message.text))
    ensures HandleEvent(s, e)
         == Reply(e.replyToken, TextMessage(if s.prompt == "" then "สวัสดีค่ะ" else s.prompt))
  {
    NoDecisiveRuleFallsBack(s, Lower(e.message.text));
  }
}
