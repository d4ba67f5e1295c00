/**
 * The deck agent's settings and how they resolve to the provider, model id
 * and mock mode the pipeline actually uses.
 */
module Config {
  import opened Wrappers
  import opened Text

  datatype Provider = OpenAI | Anthropic

  function ProviderName(p: Provider): string {
    match p
    case OpenAI => "openai"
    case Anthropic => "anthropic"
  }

  /** The environment-backed fields the resolution reads. */
  datatype Settings = Settings(
    provider: string,
    openaiKey: Option<string>,
    openaiModel: string,
    anthropicKey: Option<string>,
    anthropicModel: string,
    mockMode: Option<bool>)

  /** Every field at its declared default. */
  const Defaults: Settings := Settings("auto", None, "gpt-4o-mini", None, "claude-3-5-sonnet-latest", None)

  /** Python truthiness of an optional key: present and non-empty. */
  predicate HasKey(k: Option<string>) {
    k.Some? && k.value != []
  }

  function KeyFor(s: Settings, p: Provider): Option<string> {
    match p
    case OpenAI => s.openaiKey
    case Anthropic => s.anthropicKey
  }

  /** The requested provider after `(provider or "auto").strip().lower()`. */
  function Requested(s: Settings): string {
    Lower(Strip(if s.provider == [] then "auto" else s.provider))
  }

  /** `provider` names a concrete provider rather than `auto` (or anything else). */
  predicate Explicit(s: Settings) {
    Requested(s) in {"anthropic", "claude", "openai"}
  }

  /**
   * `effective_provider`: an explicit choice wins; otherwise the first
   * provider with a key, in the order OpenAI, Anthropic; otherwise OpenAI.
   */
  function EffectiveProvider(s: Settings): (p: Provider)
    ensures Requested(s) in {"anthropic", "claude"} ==> p == Anthropic
    ensures Requested(s) == "openai" ==> p == OpenAI
    ensures !Explicit(s) && HasKey(s.openaiKey) ==> p == OpenAI
    ensures !Explicit(s) && !HasKey(s.openaiKey) ==> (p == Anthropic <==> HasKey(s.anthropicKey))
  {
    var r := Requested(s);
    if r == "anthropic" || r == "claude" then Anthropic
    else if r == "openai" then OpenAI
    else if HasKey(s.openaiKey) then OpenAI
    else if HasKey(s.anthropicKey) then Anthropic
    else OpenAI
  }

  /** `effective_model`: the model id configured for the effective provider. */
  function EffectiveModel(s: Settings): (m: string)
    ensures EffectiveProvider(s) == Anthropic ==> m == s.anthropicModel
    ensures EffectiveProvider(s) == OpenAI ==> m == s.openaiModel
  {
    if EffectiveProvider(s) == Anthropic then s.anthropicModel else s.openaiModel
  }

  /** `effective_mock_mode`: an explicit flag wins; otherwise mock exactly when the provider has no key. */
  function EffectiveMockMode(s: Settings): (b: bool)
    ensures s.mockMode.Some? ==> b == s.mockMode.value
    ensures s.mockMode.None? ==> (b <==> !HasKey(KeyFor(s, EffectiveProvider(s))))
  {
    if s.mockMode.Some? then s.mockMode.value
    else if EffectiveProvider(s) == Anthropic then !HasKey(s.anthropicKey)
    else !HasKey(s.openaiKey)
  }

  /**
   * The Anthropic model id has no say in the provider or mock mode; on the
   * Anthropic path it is the effective model.
   */
  lemma AnthropicModelOnly(s: Settings, m: string)
    ensures var t := s.(anthropicModel := m);
      && EffectiveProvider(t) == EffectiveProvider(s)
      && EffectiveMockMode(t) == EffectiveMockMode(s)
      && (EffectiveProvider(s) == Anthropic ==> EffectiveModel(t) == m)
  {
    var t := s.(anthropicModel := m);
    assert Requested(t) == Requested(s);
  }

  /** Provider names are matched after trimming and lowercasing. */
  lemma ProviderNameInsensitive(s: Settings, t: Settings)
    requires Lower(Strip(s.provider)) == Lower(Strip(t.provider)) && s.provider != [] && t.provider != []
    requires s.openaiKey == t.openaiKey && s.anthropicKey == t.anthropicKey
    ensures EffectiveProvider(s) == EffectiveProvider(t)
  {
  }

  /**
   * In `auto` mode the pipeline never picks a provider without a key while
   * the other one has one, and falls back to mock mode only when neither key
   * is set.
   */
  lemma AutoPrefersKeyedProvider(s: Settings)
    requires !Explicit(s)
    ensures HasKey(s.openaiKey) || HasKey(s.anthropicKey) ==> HasKey(KeyFor(s, EffectiveProvider(s)))
    ensures s.mockMode.None? ==> (EffectiveMockMode(s) <==> !HasKey(s.openaiKey) && !HasKey(s.anthropicKey))
  {
  }

  /** The default `provider` field requests `auto`. */
  lemma DefaultsRequestAuto()
    ensures Requested(Defaults) == "auto"
  {
    var a := "auto";
    assert Trimmed(a) by {
      assert !IsSpace(a[0]) && !IsSpace(a[3]);
    }
    var l := Lower(a);
    assert l[0] == 'a' && l[1] == 'u' && l[2] == 't' && l[3] == 'o';
    assert l == a;
  }

  /** The defaults resolve to OpenAI's default model in mock mode. */
  lemma DefaultsResolve()
    ensures EffectiveProvider(Defaults) == OpenAI
    ensures EffectiveModel(Defaults) == "gpt-4o-mini"
    ensures EffectiveMockMode(Defaults)
  {
    DefaultsRequestAuto();
    var r := Requested(Defaults);
    assert r != "anthropic" && r != "claude" && r != "openai" by {
      assert |r| == 4 && r[0] == 'a' && r[1] == 'u';
    }
    assert !HasKey(Defaults.openaiKey) && !HasKey(Defaults.anthropicKey);
  }
}
