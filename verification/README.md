# Reply selection of a LINE keyword chatbot, in Dafny

This project models the one piece of logic in `index.js` of the chatbot
service that is more than HTTP, file or SDK plumbing:

- **the reply selector** (`handleEvent`): a webhook event that is not a text
  message gets no reply; otherwise the message text is lower-cased and the
  configured keyword rules are scanned in order. A rule matches when one of
  its triggers, lower-cased, is a substring of the text. The first rule that
  matches *and* has type `image` or a type starting with `flex` decides the
  reply (its images, or a flex card); a matching rule of any other type, or
  of no type, does not stop the scan. When no rule decides, the reply is the
  configured prompt, or `สวัสดีค่ะ` when the prompt is empty;
- **the flex bubble builder** (`generateFlex`): a card with an optional hero
  image taken from the first URL, a body holding the title (default
  `ไม่มีข้อความ`) followed by one image per remaining URL, and per-type
  styling; only `flex2` has a header with a fixed promotion banner;
- **the admin settings save** (POST `/admin/settings`): `prompt` is replaced
  only when the supplied value is truthy, `keywords` whenever it is supplied.

Modules, one per concern of the source:

- `Wrappers` (`wrappers.dfy`): `Option`, for fields that may be absent.
- `Strings` (`strings.dfy`): `toLowerCase` (ASCII fold), `includes` with its
  specification `IsSubstring`, `startsWith`.
- `Flex` (`flex.dfy`): the card datatypes, `GenerateFlex`, and the read-back
  functions `ShownImages`/`ShownTitle` that the round-trip lemma uses.
- `Config` (`config.dfy`): keyword rules, settings, the initial settings and
  the admin `Merge`.
- `Handler` (`handler.dfy`): events, replies, the rule scan, `HandleEvent`
  and the lemmas about first-match ordering and fall-through.

The SDK call `lineClient.replyMessage(replyToken, messages)` is replaced by
the returned value `Reply(replyToken, body)`; a non-text event returns
`NoReply` (the source's `null`). The settings are a parameter of every
operation instead of a global.

The `hero` field is computed in the source as `images[0] && {...}`. It has
three outcomes, and the model keeps all three: no first URL gives `undefined`
(`NoHero`, the key is dropped when the card is serialised); an empty first URL
gives the empty string itself (`EmptyHero`, serialised as `"hero": ""`); any
other first URL gives a hero image (`HeroImage`).

An admin save with `keywords: []` clears every rule, because an empty
array is truthy in JavaScript. A save with `prompt: ""` keeps the old prompt,
because the empty string is falsy. So once a prompt is set, the admin save
cannot make it empty again (`Config.Merge`).

## Model

| member | source | states |
|---|---|---|
| `Strings.Lower` | index.js:154 | lower-casing keeps the length, leaves no ASCII capital, maps each capital to its small letter and keeps every other character |
| `Strings.IncludesFrom` | index.js:157 | the search from an offset succeeds exactly when the needle occurs at that offset or a later one |
| `Strings.Includes` | index.js:157 | `includes` holds exactly when some offset of the text carries the needle; the empty needle is found everywhere |
| `Handler.AnyTrigger` | index.js:157 | `some` over the triggers holds exactly when some trigger, lower-cased, is a substring of the text |
| `Handler.Matches` | index.js:157 | a rule matches exactly when one of its triggers, lower-cased, occurs in the lower-cased text |
| `Handler.FirstDecisive` | index.js:156-171 | the scan returns the first rule that matches and has a recognised type (`Recognised`: type `image`, or a type for which `Strings.StartsWith(type, "flex")` holds, as at lines 158 and 165), with no such rule before it; it returns none only when no rule is like that |
| `Handler.ImageMessages` | index.js:159-161 | one image message per configured URL, in order, with original and preview URL both equal to that URL |
| `Handler.RuleReply` | index.js:158-170 | an `image` rule replies with one image message per configured URL in order (original and preview both that URL); any other recognised rule replies with the card `GenerateFlex(type, text, images)`, which shows exactly the rule's images and its title (or `ไม่มีข้อความ`), and whose alt text is the rule's text, or `มีข้อความใหม่` when it is empty |
| `Handler.Fallback` | index.js:174-177 | the fallback is a single text message: the prompt when non-empty, exactly `สวัสดีค่ะ` when the prompt is empty |
| `Handler.Respond` | index.js:156-177 | the reply is the fallback text exactly when no rule both matches and has a recognised type |
| `Handler.HandleEvent` | index.js:152-154 | an event gets no reply exactly when it is not a message or its message is not text; a reply goes to the event's reply token |
| `Handler.FirstMatchWins` | index.js:156-171 | when rule i is the first rule that matches with a recognised type, the reply is rule i's, whatever the later rules say |
| `Handler.NoDecisiveRuleFallsBack` | index.js:174-177 | when no rule matches with a recognised type, the reply is the fallback text |
| `Handler.LaterRulesIgnored` | index.js:156-171 | once rule i matches with a recognised type, replacing or dropping every rule after it never changes the reply |
| `Handler.UndecisiveRuleIrrelevant` | index.js:158-171 | deleting a rule that does not decide (no match, or a type other than `image`/`flex...`, or no type) never changes the reply: the scan moves past it |
| `Handler.EmptyTriggerMatchesAll` | index.js:157 | a rule with an empty trigger matches every text |
| `Handler.CaseInsensitive` | index.js:154 | two messages whose texts lower-case to the same string get the same reply |
| `Handler.TriggerCaseIrrelevant` | index.js:157 | lower-casing the configured triggers themselves changes no match |
| `Handler.InitialSettingsGreet` | index.js:30 | with the in-memory defaults, which stay in force when loading the settings file fails, there are no rules and every text message is answered with the initial prompt |
| `Handler.PromptSaveOnlyAffectsFallback` | index.js:189-192 | saving only a prompt never changes a rule-decided reply; when no rule decides, a truthy saved prompt becomes the reply text |
| `Handler.DecidedReplyContent` | index.js:156-171 | when rule i is the first to decide for a text message, the reply goes to the event's token and is one image message per URL of an `image` rule, or, for a `flex...` rule, a card showing exactly its images and title (or `ไม่มีข้อความ`) with alt text the rule's text (or `มีข้อความใหม่`) |
| `Handler.FallbackReplyContent` | index.js:174-177 | when no rule decides for a text message, the reply to the event's token is the prompt, or `สวัสดีค่ะ` when the prompt is empty |
| `Handler.UnknownTypeFallsThroughExample` | index.js:156-171 | for `มีโปรอะไรบ้าง`, a matching `text` rule is passed over and the following `image` rule answers with its two images |
| `Flex.Rest` | index.js:92 | the URLs after the first, in order; none when there are no URLs (the `slice(1)` of lines 92, 120 and 142) |
| `Flex.HeroOf` | index.js:80-86 | the hero is absent exactly when there is no first URL, the empty string exactly when the first URL is empty, otherwise an image of the first URL |
| `Flex.Thumbnails` | index.js:92-94 | one image component per remaining URL, in order, with the variant's size and margin |
| `Flex.GenerateFlex` | index.js:75-149 | for every type: a header exactly for `flex2` (the fixed promotion banner); a hero image exactly when the first URL exists and is non-empty, with that URL; a body of `max(1, n)` items for n URLs, first the title (default `ไม่มีข้อความ`), then URL i at position i; styling per type: the hero is a full cover image, 16:9 for `flex2` and 20:13 otherwise; the body is vertical with spacing `md` only for `flex2`; the title wraps and is bold, `lg`, `#ff5555` for `flex1`, unstyled for `flex2`, bold `md` otherwise; thumbnails are covers of size `xs` with margin `sm` for `flex1`, size `sm` with margin `md` otherwise |
| `Flex.GenerateFlexRoundTrip` | index.js:75-149 | reading the card back gives exactly the configured URLs in order and the title or its default, whatever the type |
| `Config.Merge` | index.js:189-192 | `prompt` replaces the stored prompt only when truthy (`Truthy`: supplied and non-empty), `keywords` replaces the rules whenever supplied, every other field is kept, and a non-empty prompt never becomes empty |
| `Config.MergeIdempotent` | index.js:189-192 | saving the same request twice equals saving it once |
| `Config.MergeLastWriterWins` | index.js:189-192 | two saves in a row compose into one save in which each field holds the last value applied |

## Left out

- Signature validation (index.js:44-47): an HMAC-SHA256 computed by Node's `crypto` library; the model starts after a valid signature.
- Express routing, raw-body parsing, JSON parsing and HTTP status codes (index.js:50-72, 181-207): framework plumbing.
- The concurrent dispatch of a batch with `Promise.all` (index.js:66): the model handles one event.
- Loading and writing `setting.json` (index.js:32-41, 194-195) and the reload after a save: file I/O. The model treats a save as applying `Merge` to the settings in memory.
- Image uploads with multer (index.js:204-207): I/O.
- The delivery by `lineClient.replyMessage`: a vendor SDK call; the model returns the reply instead, and the SDK's response is not modelled.
- Strings.Lower: folds only the ASCII letters A-Z; `toLowerCase` also folds non-ASCII letters (Latin-1, Greek, Cyrillic, ...). Thai, the language of the configured texts, has no letter case.
- Missing or mistyped fields that make the source throw a TypeError (an event of type `message` without a `message`, a rule without its `keywords` array, an `image` rule without `images`, a non-string trigger or type): the model's types always carry these fields, so these crashes are not modelled. A missing rule `text`, `images` on a `flex` rule, `type`, `prompt` or `keywords` setting is modelled, as the empty value the source substitutes.
- The commented-out earlier variant of the whole file (index.js:212-367): dead code.
