/**
 The stored settings (setting.json) and the admin save that edits them
 (POST /admin/settings in index.js).
 */
module Config {
  import opened Wrappers

  /**
   One keyword rule, an element of `settings.keywords`: its trigger
   substrings (the element's own `keywords` field), its reply type (absent
   when the element has no `type`), its text (`""` when absent) and its image
   URLs (`[]` when absent).
   */
  datatype Rule = Rule(triggers: seq<string>, kind: Option<string>, text: string, images: seq<string>)

  /**
   The settings object: the fallback prompt (`""` when absent), the ordered
   keyword rules (`[]` when absent) and every other top-level field of the
   stored document, kept opaque.
   */
  datatype Settings = Settings(prompt: string, keywords: seq<Rule>, other: map<string, string>)

  /** The settings the process starts with before the file is loaded. */
  const InitialSettings: Settings := Settings("สวัสดีค่ะ มีอะไรให้ช่วยไหมคะ", [], map[])

  /** JavaScript truthiness of a supplied prompt: present and non-empty. */
  predicate Truthy(prompt: Option<string>) {
    prompt.Some? && prompt.value != ""
  }

  /**
   The admin save: `prompt` replaces the stored prompt only when it is
   truthy; `keywords` replaces the stored rules whenever it is supplied
   (an array, even an empty one, is truthy); nothing else changes.
   */
  function Merge(s: Settings, prompt: Option<string>, keywords: Option<seq<Rule>>): (r: Settings)
    ensures r.other == s.other
    ensures Truthy(prompt) ==> r.prompt == prompt.value
    ensures !Truthy(prompt) ==> r.prompt == s.prompt
    ensures keywords.Some? ==> r.keywords == keywords.value
    ensures keywords.None? ==> r.keywords == s.keywords
    ensures s.prompt != "" ==> r.prompt != ""
  {
    s.(prompt := if Truthy(prompt) then prompt.value else s.prompt,
       keywords := keywords.GetOr(s.keywords))
  }

  /** Saving the same request twice is the same as saving it once. */
  lemma MergeIdempotent(s: Settings, prompt: Option<string>, keywords: Option<seq<Rule>>)
    ensures Merge(Merge(s, prompt, keywords), prompt, keywords) == Merge(s, prompt, keywords)
  {
  }

  /** Two saves in a row: each field keeps the last value that was applied
      (last writer wins), so they compose into one save. */
  lemma MergeLastWriterWins(s: Settings, p1: Option<string>, k1: Option<seq<Rule>>,
                            p2: Option<string>, k2: Option<seq<Rule>>)
    ensures Merge(Merge(s, p1, k1), p2, k2)
         == Merge(s, if Truthy(p2) then p2 else p1, if k2.Some? then k2 else k1)
  {
  }
}
