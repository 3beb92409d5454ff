/**
 * The safety guardrail of the chat pipeline: a three-tier input filter
 * (harmful keywords, harmful-intent patterns, profanity count) and the
 * per-agent disclaimer appended to every answer.
 */
module Guardrails {
  import opened PyStr

  /** The denylist, all lower-case, so `keyword.lower()` is the keyword itself. */
  const HarmfulKeywords: seq<string> := [
    "hack", "virus", "bomb", "kill", "murder", "suicide", "self-harm", "hurt",
    "violence", "attack", "assault", "weapon", "gun", "knife", "explosive",
    "illegal drugs", "cocaine", "heroin", "meth", "steal", "robbery", "fraud",
    "money laundering", "tax evasion", "piracy", "copyright infringement",
    "sexual content", "pornography", "adult content", "nsfw",
    "password", "social security", "credit card", "bank account", "private key"
  ]

  /**
   * The five regular expressions, each a literal alternation: a pattern is
   * found by `re.search` iff one of its alternatives is a substring.
   */
  const SensitivePatterns: seq<seq<string>> := [
    ["how to hack", "how to break into", "how to steal"],
    ["make bomb", "make explosive", "make weapon"],
    ["illegal ways to"],
    ["bypass security"],
    ["crack password"]
  ]

  const ProfanityWords: seq<string> := ["fuck", "shit", "damn", "bitch", "asshole"]

  const HarmfulMessage: string :=
    "I cannot help with requests that may involve harmful or illegal activities. Please ask about engineering, medical, or legal topics in a constructive way."
  const PatternMessage: string :=
    "I cannot provide guidance on potentially harmful activities. Please rephrase your question in a constructive manner."
  const ProfanityMessage: string := "Please keep the conversation professional and respectful."
  const Apology: string := "I apologize, but I cannot provide a response to that query."

  datatype SafetyVerdict = SafetyVerdict(safe: bool, message: string)

  predicate KeywordHit(lower: string) {
    exists k | k in HarmfulKeywords :: Contains(lower, k)
  }

  predicate PatternFound(pattern: seq<string>, lower: string) {
    exists alt | alt in pattern :: Contains(lower, alt)
  }

  predicate PatternHit(lower: string) {
    exists p | p in SensitivePatterns :: PatternFound(p, lower)
  }

  /** `sum(1 for word in words if word in lower)`. */
  function CountPresent(words: seq<string>, lower: string): (n: nat)
    ensures n <= |words|
  {
    if words == [] then 0
    else (if Contains(lower, words[0]) then 1 else 0) + CountPresent(words[1..], lower)
  }

  function ProfanityCount(lower: string): nat {
    CountPresent(ProfanityWords, lower)
  }

  /** `check_input_safety`: the tiers are tried in order and the first that fires decides. */
  function CheckInputSafety(input: string): (r: SafetyVerdict)
    ensures r.safe ==> r.message == input
    ensures !r.safe ==> r.message in {HarmfulMessage, PatternMessage, ProfanityMessage}
  {
    var lower := Lower(input);
    if KeywordHit(lower) then SafetyVerdict(false, HarmfulMessage)
    else if PatternHit(lower) then SafetyVerdict(false, PatternMessage)
    else if ProfanityCount(lower) > 2 then SafetyVerdict(false, ProfanityMessage)
    else SafetyVerdict(true, input)
  }

  /** The verdict of each tier, stated as the if-and-only-if the three early returns give. */
  lemma CheckInputSafetyTiers(input: string)
    ensures var r, lower := CheckInputSafety(input), Lower(input);
      && (r.message == HarmfulMessage && !r.safe <==> KeywordHit(lower))
      && (!r.safe && r.message == PatternMessage <==> !KeywordHit(lower) && PatternHit(lower))
      && (!r.safe && r.message == ProfanityMessage <==>
            !KeywordHit(lower) && !PatternHit(lower) && ProfanityCount(lower) > 2)
      && (r.safe <==> !KeywordHit(lower) && !PatternHit(lower) && ProfanityCount(lower) <= 2)
  {
  }

  /** Whether the input is let through does not depend on letter case. */
  lemma SafetyIgnoresCase(input: string)
    ensures CheckInputSafety(Lower(input)).safe == CheckInputSafety(input).safe
  {
    LowerIdempotent(input);
  }

  /** A keyword inside a longer word still fires: "skill" contains "kill". */
  lemma SkillIsRejected()
    ensures CheckInputSafety("skill") == SafetyVerdict(false, HarmfulMessage)
  {
    var s := "skill";
    assert Lower(s) == s by {
      forall i | 0 <= i < |s| ensures Lower(s)[i] == s[i] { }
    }
    assert s[1..5] == "kill";
    ContainsAt(s, "kill", 1);
    assert "kill" in HarmfulKeywords;
  }

  lemma KeywordInside(lower: string, alt: string, keyword: string, at: nat)
    requires Contains(lower, alt) && OccursAt(alt, keyword, at) && keyword in HarmfulKeywords
    ensures KeywordHit(lower)
  {
    ContainsAt(alt, keyword, at);
    ContainsTransitive(lower, alt, keyword);
  }

  /** Each alternative of the first, second and fifth pattern contains a keyword. */
  lemma HowToPattern(lower: string)
    requires PatternFound(SensitivePatterns[0], lower)
    ensures KeywordHit(lower) || Contains(lower, "how to break into")
  {
    var pattern := SensitivePatterns[0];
    var j :| 0 <= j < |pattern| && Contains(lower, pattern[j]);
    if j == 0 {
      assert pattern[0][7..11] == HarmfulKeywords[0];
      KeywordInside(lower, pattern[0], HarmfulKeywords[0], 7);
    } else if j == 2 {
      assert pattern[2][7..12] == HarmfulKeywords[19];
      KeywordInside(lower, pattern[2], HarmfulKeywords[19], 7);
    }
  }

  lemma MakePattern(lower: string)
    requires PatternFound(SensitivePatterns[1], lower)
    ensures KeywordHit(lower)
  {
    var pattern := SensitivePatterns[1];
    var j :| 0 <= j < |pattern| && Contains(lower, pattern[j]);
    if j == 0 {
      assert pattern[0][5..9] == HarmfulKeywords[2];
      KeywordInside(lower, pattern[0], HarmfulKeywords[2], 5);
    } else if j == 1 {
      assert pattern[1][5..14] == HarmfulKeywords[14];
      KeywordInside(lower, pattern[1], HarmfulKeywords[14], 5);
    } else {
      assert pattern[2][5..11] == HarmfulKeywords[11];
      KeywordInside(lower, pattern[2], HarmfulKeywords[11], 5);
    }
  }

  lemma CrackPattern(lower: string)
    requires PatternFound(SensitivePatterns[4], lower)
    ensures KeywordHit(lower)
  {
    var pattern := SensitivePatterns[4];
    assert pattern[0][6..14] == HarmfulKeywords[30];
    KeywordInside(lower, pattern[0], HarmfulKeywords[30], 6);
  }

  /**
   * The pattern tier is reached only without a keyword hit, and every
   * alternative but three contains a keyword; so only those three can fire it.
   */
  lemma PatternTierOnlyThreePhrases(lower: string)
    requires !KeywordHit(lower) && PatternHit(lower)
    ensures || Contains(lower, "how to break into")
            || Contains(lower, "illegal ways to")
            || Contains(lower, "bypass security")
  {
    var n :| 0 <= n < |SensitivePatterns| && PatternFound(SensitivePatterns[n], lower);
    if n == 0 {
      HowToPattern(lower);
    } else if n == 1 {
      MakePattern(lower);
    } else if n == 4 {
      CrackPattern(lower);
    } else {
      assert PatternFound(SensitivePatterns[n], lower);
    }
  }

  /** The profanity tier counts distinct listed words: a repeated word counts once. */
  lemma {:induction false} CountPresentIsDistinct(words: seq<string>, lower: string)
    requires forall i, j | 0 <= i < j < |words| :: words[i] != words[j]
    ensures CountPresent(words, lower) == |set w | w in words && Contains(lower, w)|
  {
    if words != [] {
      var rest := set w | w in words[1..] && Contains(lower, w);
      var all := set w | w in words && Contains(lower, w);
      CountPresentIsDistinct(words[1..], lower);
      assert words[0] !in rest;
      if Contains(lower, words[0]) {
        assert all == {words[0]} + rest;
      } else {
        assert all == rest;
      }
    }
  }

  lemma ProfanityNeedsThreeDistinctWords(lower: string)
    ensures ProfanityCount(lower) == |set w | w in ProfanityWords && Contains(lower, w)|
  {
    CountPresentIsDistinct(ProfanityWords, lower);
  }

  // ---------------------------------------------------------------------
  // Output side

  predicate IsKnownAgent(agentType: string) {
    agentType in {"doctor", "lawyer", "engineer"}
  }

  const DoctorDisclaimer: string :=
    "\n\n\U{26A0}\U{FE0F} Disclaimer: This information is for educational purposes only. Please consult with a qualified healthcare professional for medical advice, diagnosis, or treatment."
  const LawyerDisclaimer: string :=
    "\n\n\U{26A0}\U{FE0F} Disclaimer: This is general legal information only and should not be considered legal advice. Please consult with a qualified attorney for specific legal matters."
  const EngineerDisclaimer: string :=
    "\n\n\U{1F4A1} Note: This is technical guidance. Always test thoroughly and consider your specific requirements and constraints."

  /** `disclaimers.get(agent_type, "")`: non-empty exactly for the three agents. */
  function Disclaimer(agentType: string): (d: string)
    ensures IsKnownAgent(agentType) ==> |d| > 0
    ensures !IsKnownAgent(agentType) ==> d == ""
  {
    if agentType == "doctor" then DoctorDisclaimer
    else if agentType == "lawyer" then LawyerDisclaimer
    else if agentType == "engineer" then EngineerDisclaimer
    else ""
  }

  /** `add_disclaimers`: the agent's disclaimer after the response; other agent types leave it unchanged. */
  function AddDisclaimers(response: string, agentType: string): (r: string)
    ensures |r| >= |response| && r[..|response|] == response
    ensures !IsKnownAgent(agentType) ==> r == response
    ensures IsKnownAgent(agentType) ==> |r| > |response|
  {
    response + Disclaimer(agentType)
  }

  /**
   * `filter_response`: never empty; the apology replaces the text only for an
   * empty response to an unknown agent type, otherwise the response comes first.
   */
  function FilterResponse(response: string, agentType: string): (r: string)
    ensures r != ""
    ensures response == "" && !IsKnownAgent(agentType) ==> r == Apology
    ensures !(response == "" && !IsKnownAgent(agentType)) ==>
      r == response + Disclaimer(agentType) && r[..|response|] == response
  {
    var filtered := AddDisclaimers(response, agentType);
    if filtered == "" then Apology else filtered
  }
}
