/** The decision engine for AI-proposed actions (internal/server/aipolicy/aipolicy.go).
    Confidences and scores are real numbers. */
module AiPolicy {
  import opened Prelude

  datatype Mode = Off | Suggest | Assisted | Auto | Unrecognised
  datatype Verdict = Allow | Ask | Deny
  datatype Outcome = Apply | Queue | Nothing
  datatype Request = Request(confidence: real, suppressing: bool, severity: string, cvss: real,
                             knownExploited: bool, environment: string, criticality: string)
  datatype Decision = Decision(verdict: Verdict, outcome: Outcome, rule: string)
  datatype Config = Config(mode: Mode, minConfidence: real, protectProduction: bool)

  /** strings.EqualFold against a lower-case word.  No letter of the words used here folds
      with a character outside ASCII. */
  predicate FoldsTo(s: string, word: string)
  {
    |s| == |word| && forall i :: 0 <= i < |s| ==> LowerChar(s[i]) == word[i]
  }

  predicate IsCritical(severity: string, cvss: real)
  {
    FoldsTo(TrimSpace(severity), "critical") || cvss >= 9.0
  }

  /** Findings only a human may silence. */
  predicate HandsOff(req: Request)
  {
    req.suppressing && (req.knownExploited || IsCritical(req.severity, req.cvss))
  }

  predicate TooUnsure(c: Config, req: Request)
  {
    c.minConfidence > 0.0 && req.confidence < c.minConfidence
  }

  predicate ProtectedHost(c: Config, req: Request)
  {
    c.protectProduction && req.suppressing &&
    FoldsTo(TrimSpace(req.environment), "production") && FoldsTo(TrimSpace(req.criticality), "high")
  }

  /** `s` is `word` in any mixture of letter cases, with blanks before and after. */
  ghost predicate Spells(s: string, word: string)
  {
    exists pre, w, post :: s == pre + w + post && AllIn(pre, Space) && AllIn(post, Space) && SameLetters(w, word)
  }

  ghost predicate SameLetters(w: string, word: string)
  {
    |w| == |word| && forall i :: 0 <= i < |w| ==> w[i] == word[i] || ('a' <= word[i] <= 'z' && w[i] as int == word[i] as int - 32)
  }

  predicate LowerCase(word: string)
  {
    word != "" && forall i :: 0 <= i < |word| ==> 'a' <= word[i] <= 'z'
  }

  lemma FoldingIsSameLetters(w: string, word: string)
    requires LowerCase(word)
    ensures FoldsTo(w, word) <==> SameLetters(w, word)
  {
    if FoldsTo(w, word) {
      forall i | 0 <= i < |w| ensures w[i] == word[i] || ('a' <= word[i] <= 'z' && w[i] as int == word[i] as int - 32) {
        assert LowerChar(w[i]) == word[i];
      }
    }
  }

  /** Trimming and folding recognise exactly the spellings of a word. */
  lemma SpellsIff(s: string, word: string)
    requires LowerCase(word)
    ensures FoldsTo(TrimSpace(s), word) <==> Spells(s, word)
  {
    FoldingIsSameLetters(TrimSpace(s), word);
    if FoldsTo(TrimSpace(s), word) {
      var pre := TrimLeftSplits(s, Space);
      var post := TrimRightSplits(TrimLeft(s, Space), Space);
      assert s == pre + TrimSpace(s) + post;
    }
    if Spells(s, word) {
      var pre, w, post :| s == pre + w + post && AllIn(pre, Space) && AllIn(post, Space) && SameLetters(w, word);
      assert !IsIn(w[0], Space) && !IsIn(w[|w| - 1], Space);
      TrimsTo(pre, w, post);
      FoldingIsSameLetters(w, word);
    }
  }

  lemma TrimsTo(pre: string, w: string, post: string)
    requires w != "" && !IsIn(w[0], Space) && !IsIn(w[|w| - 1], Space) && AllIn(pre, Space) && AllIn(post, Space)
    ensures TrimSpace(pre + w + post) == w
  {
    assert pre + w + post == pre + (w + post);
    TrimLeftOff(pre, w + post, Space);
    TrimRightOff(w, post, Space);
  }

  /** The ruling over the bare request.  Nothing that silences a known-exploited finding, or
      one scored 9 or more, or one whose severity spells "critical", is applied or queued in
      any mode; everything else sure enough is applied in auto mode, and in assisted mode
      unless it is on a protected production host, when a human is asked. */
  lemma DecideMeans(c: Config, req: Request)
    ensures var d := Decide(c, req);
      var serious := req.suppressing && (req.knownExploited || req.cvss >= 9.0 || Spells(req.severity, "critical"));
      var unsure := c.minConfidence > 0.0 && req.confidence < c.minConfidence;
      var shielded := c.protectProduction && req.suppressing &&
        Spells(req.environment, "production") && Spells(req.criticality, "high");
      && (d.outcome == Apply <==> !serious && !unsure && (c.mode.Auto? || (c.mode.Assisted? && !shielded)))
      && (d.outcome == Queue <==> !serious && !unsure && c.mode.Assisted? && shielded)
      && (d.verdict == Deny <==> c.mode.Off? || serious || unsure)
      && (d.rule == "safety_critical" <==> !c.mode.Off? && serious)
  {
    SpellsIff(req.severity, "critical");
    SpellsIff(req.environment, "production");
    SpellsIff(req.criticality, "high");
  }

  /** The ruling. */
  function Decide(c: Config, req: Request): (d: Decision)
    ensures req.suppressing && (req.knownExploited || req.cvss >= 9.0) ==> d.outcome == Nothing && d.verdict == Deny
    ensures c.mode.Off? || c.mode.Suggest? || c.mode.Unrecognised? ==> d.outcome == Nothing
    ensures d.outcome == Queue ==> c.mode.Assisted? && c.protectProduction && req.suppressing
    ensures d.outcome != Nothing ==> c.minConfidence <= 0.0 || c.minConfidence <= req.confidence
  {
    if c.mode.Off? then Decision(Deny, Nothing, "mode_off")
    else if HandsOff(req) then Decision(Deny, Nothing, "safety_critical")
    else if TooUnsure(c, req) then Decision(Deny, Nothing, "low_confidence")
    else if ProtectedHost(c, req) then Decision(Ask, ResolveOutcome(c, Ask), "protect_production")
    else Decision(Allow, ResolveOutcome(c, Allow), "allow")
  }

  function ResolveOutcome(c: Config, v: Verdict): Outcome
  {
    match c.mode
    case Assisted => if v == Allow then Apply else Queue
    case Auto => Apply
    case _ => Nothing
  }
}
