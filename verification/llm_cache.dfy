/** The two pure rules of the LLM cache layer: the prompt normalisation
    that makes near-identical prompts share a cache key, and the per-model
    registry that hands every caller of one model the same rate limiter.
    Hashing, the cache file, the API calls and the limiter's sleeping are
    not part of this model. */
module LlmCache {
  import opened Wrappers
  import opened Strings
  import opened Seqs
  import opened Assoc

  // ---------------------------------------------------------------------
  // Prompt normalisation
  // ---------------------------------------------------------------------

  /** The filler words dropped from a prompt before it becomes a key. */
  const StopWords := ["a", "an", "the", "please", "could", "would", "you",
                      "generate", "create", "write", "me", "for", "is", "are"]

  /** A token that survives the stop-word filter. */
  predicate Keeps(t: string) {
    t !in StopWords
  }

  /** The characters the scrubbing regex `[^\w\s\.\-]` leaves alone. */
  predicate Allowed(c: char) {
    IsWordChar(c) || IsSpace(c) || c == '.' || c == '-'
  }

  /** Replaces every character outside the allowed classes by a space. */
  function Scrub(s: string): (r: string)
    ensures |r| == |s|
    ensures forall i :: 0 <= i < |r| ==> Allowed(r[i])
    ensures forall i :: 0 <= i < |r| ==> (Allowed(s[i]) ==> r[i] == s[i]) && (!Allowed(s[i]) ==> r[i] == ' ')
  {
    seq(|s|, i requires 0 <= i < |s| => if Allowed(s[i]) then s[i] else ' ')
  }

  /** The tokens of a prompt before the stop-word filter. */
  function RawTokens(text: string): seq<string> {
    Split(Scrub(Lower(text)))
  }

  /** `_normalize_prompt`: lower-case, scrub, split on whitespace, drop the
      stop words and join the rest with single spaces. */
  function NormalizePrompt(text: string): (r: string)
    ensures text == "" ==> r == ""
  {
    if text == "" then ""
    else Join(Filter(RawTokens(text), Keeps), " ")
  }

  /** A character that may appear in a normalised prompt: the single space
      between tokens, or an allowed, non-whitespace, non-upper-case
      character of a token. */
  predicate OutputChar(c: char) {
    c == ' ' || (Allowed(c) && !IsSpace(c) && !IsUpper(c))
  }

  predicate TokenChar(c: char) {
    Allowed(c) && !IsSpace(c) && !IsUpper(c)
  }

  /** Non-empty runs of lower-case, allowed, non-whitespace characters. */
  predicate TokensWellFormed(ts: seq<string>) {
    forall k :: 0 <= k < |ts| ==> |ts[k]| > 0 && NoSpace(ts[k]) && forall i :: 0 <= i < |ts[k]| ==> TokenChar(ts[k][i])
  }

  /** The kept tokens are non-empty runs of lower-case, allowed,
      non-whitespace characters. */
  lemma {:induction false} KeptTokensWellFormed(text: string)
    ensures TokensWellFormed(Filter(RawTokens(text), Keeps))
  {
    var s := Scrub(Lower(text));
    var raw := Split(s);
    SplitTokensAreWords(s);
    SplitChars(s, c => Allowed(c) && !IsUpper(c));
    var ts := Filter(raw, Keeps);
    forall k | 0 <= k < |ts|
      ensures |ts[k]| > 0 && NoSpace(ts[k]) && forall i :: 0 <= i < |ts[k]| ==> TokenChar(ts[k][i])
    {
      FilterMember(raw, Keeps, ts[k]);
      var j :| 0 <= j < |raw| && raw[j] == ts[k];
      assert forall i :: 0 <= i < |raw[j]| ==> Allowed(raw[j][i]) && !IsUpper(raw[j][i]);
    }
  }

  /** The characters of a normalised prompt: no upper-case letter, nothing
      the scrubbing regex replaces, and no whitespace but the single
      separating space. */
  lemma {:induction false} NormalizedChars(text: string)
    ensures forall i :: 0 <= i < |NormalizePrompt(text)| ==> OutputChar(NormalizePrompt(text)[i])
  {
    if text != "" {
      var ts := Filter(RawTokens(text), Keeps);
      KeptTokensWellFormed(text);
      assert forall k, i :: 0 <= k < |ts| && 0 <= i < |ts[k]| ==> OutputChar(ts[k][i]) by {
        forall k, i | 0 <= k < |ts| && 0 <= i < |ts[k]| ensures OutputChar(ts[k][i]) {
          assert TokenChar(ts[k][i]);
        }
      }
      JoinChars(ts, " ", OutputChar);
    }
  }

  /** The tokens of a normalised prompt are exactly the prompt's tokens
      that are not stop words, in their original order. */
  lemma {:induction false} NormalizedTokens(text: string)
    requires text != ""
    ensures Split(NormalizePrompt(text)) == Filter(RawTokens(text), Keeps)
    ensures forall k :: 0 <= k < |Split(NormalizePrompt(text))| ==> Split(NormalizePrompt(text))[k] !in StopWords
    ensures forall t :: t in Split(NormalizePrompt(text)) <==> t in RawTokens(text) && t !in StopWords
    ensures IsSubseq(Split(NormalizePrompt(text)), RawTokens(text))
  {
    var ts := Filter(RawTokens(text), Keeps);
    KeptTokensWellFormed(text);
    SplitJoin(ts);
    forall t ensures t in ts <==> t in RawTokens(text) && t !in StopWords {
      FilterMember(RawTokens(text), Keeps, t);
    }
    FilterSubseq(RawTokens(text), Keeps);
  }

  /** A normalised prompt has no leading, trailing or doubled whitespace. */
  lemma {:induction false} NormalizedSpacing(text: string)
    ensures var r := NormalizePrompt(text);
      && (|r| > 0 ==> r[0] != ' ' && r[|r| - 1] != ' ')
      && (forall i :: 0 <= i < |r| - 1 && r[i] == ' ' ==> r[i + 1] != ' ')
  {
    if text != "" {
      var ts := Filter(RawTokens(text), Keeps);
      KeptTokensWellFormed(text);
      assert forall k :: 0 <= k < |ts| ==> |ts[k]| > 0 && NoSpace(ts[k]);
      JoinSpacing(ts);
    }
  }

  /** Normalising a normalised prompt changes nothing, so a cache key is
      stable under re-normalisation. */
  lemma {:induction false} NormalizeIdempotent(text: string)
    ensures NormalizePrompt(NormalizePrompt(text)) == NormalizePrompt(text)
  {
    var r := NormalizePrompt(text);
    if r != "" {
      var ts := Filter(RawTokens(text), Keeps);
      NormalizedChars(text);
      LowerOfLower(r);
      assert Scrub(r) == r;
      NormalizedTokens(text);
      assert RawTokens(r) == ts;
      FilterAll(ts, Keeps);
    }
  }

  // ---------------------------------------------------------------------
  // Rate-limiter registry
  // ---------------------------------------------------------------------

  /** The `rate_limits` section of the configuration: per model name, its
      limit settings. */
  type RateLimits = Assoc<string, Assoc<string, real>>

  /** A limiter's fixed settings; its last-call time is clock state and not
      modelled. */
  datatype Limiter = Limiter(modelName: string, rpm: real, delay: real)

  /** The requests-per-minute default when the configuration names none. */
  const DefaultRpm: real := 15.0

  /** The limit settings a model uses: its own when present and non-empty,
      else the "default" entry when present and non-empty, else 15 rpm. */
  function LimitsFor(cfg: RateLimits, modelName: string): (r: Assoc<string, real>)
    ensures |r| > 0
    ensures Get(cfg, modelName).Some? && |Get(cfg, modelName).value| > 0 ==> r == Get(cfg, modelName).value
  {
    var own := Get(cfg, modelName);
    var fallback := Get(cfg, "default");
    if own.Some? && |own.value| > 0 then own.value
    else if fallback.Some? && |fallback.value| > 0 then fallback.value
    else [("rpm", DefaultRpm)]
  }

  /** `RateLimiter(model_name)`: the delay between calls is a minute divided
      by the rpm setting; an rpm of zero raises ZeroDivisionError. */
  function NewLimiter(cfg: RateLimits, modelName: string): (r: Outcome<Limiter>)
    ensures r.Ok? <==> Get(LimitsFor(cfg, modelName), "rpm").GetOr(DefaultRpm) != 0.0
    ensures r.Ok? ==> r.value.modelName == modelName && r.value.rpm * r.value.delay == 60.0
  {
    var rpm := Get(LimitsFor(cfg, modelName), "rpm").GetOr(DefaultRpm);
    if rpm == 0.0 then Raised else Ok(Limiter(modelName, rpm, 60.0 / rpm))
  }

  /** A model without settings of its own, with no usable default, gets
      one call every four seconds. */
  lemma UnconfiguredModelDefaults(cfg: RateLimits, modelName: string)
    requires !HasKey(cfg, modelName) && !HasKey(cfg, "default")
    ensures NewLimiter(cfg, modelName) == Ok(Limiter(modelName, 15.0, 4.0))
  {
  }

  /** The registry and the limiter a lookup yields. */
  datatype Lookup = Lookup(limiter: Outcome<Limiter>, registry: Assoc<string, Limiter>)

  /** `get_rate_limiter`: the registered limiter for a known model, else a
      new one that is registered before it is returned. A failed
      construction leaves the registry as it was. */
  function GetRateLimiter(reg: Assoc<string, Limiter>, cfg: RateLimits, modelName: string): (r: Lookup)
    ensures HasKey(reg, modelName) ==> r == Lookup(Ok(Get(reg, modelName).value), reg)
    ensures !HasKey(reg, modelName) ==> r.limiter == NewLimiter(cfg, modelName)
    ensures r.limiter.Raised? ==> r.registry == reg
    ensures r.limiter.Ok? && UniqueKeys(reg) ==> UniqueKeys(r.registry) && Get(r.registry, modelName) == Some(r.limiter.value)
    ensures |reg| <= |r.registry| && forall i :: 0 <= i < |reg| ==> r.registry[i] == reg[i]
  {
    match Get(reg, modelName)
    case Some(l) => Lookup(Ok(l), reg)
    case None =>
      match NewLimiter(cfg, modelName)
      case Ok(l) => Lookup(Ok(l), Put(reg, modelName, l))
      case Raised => Lookup(Raised, reg)
  }

  /** Asking twice for the same model yields the same limiter, and the
      second request leaves the registry as the first left it. */
  lemma SameLimiterTwice(reg: Assoc<string, Limiter>, cfg: RateLimits, modelName: string)
    requires UniqueKeys(reg)
    ensures var first := GetRateLimiter(reg, cfg, modelName);
      var second := GetRateLimiter(first.registry, cfg, modelName);
      first.limiter.Ok? ==> second == first
  {
  }

  /** A lookup never disturbs another model's limiter. */
  lemma OtherLimitersKept(reg: Assoc<string, Limiter>, cfg: RateLimits, modelName: string, other: string)
    requires UniqueKeys(reg) && other != modelName
    ensures Get(GetRateLimiter(reg, cfg, modelName).registry, other) == Get(reg, other)
  {
    if !HasKey(reg, modelName) && NewLimiter(cfg, modelName).Ok? {
      GetPutOther(reg, modelName, NewLimiter(cfg, modelName).value, other);
    }
  }
}
