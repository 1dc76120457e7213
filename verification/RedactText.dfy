// opentine/_canon_redact.py, _redact_names.py and policies.py: the name tests of the
// redaction walk, and the names a policy may add to them.
module RedactText {
  import opened Basics
  import opened Outcomes

  const CREDENTIAL_NAMES: seq<string> := [
    "access_key", "access_token", "api_key", "api_token", "apikey", "auth_token", "authorization",
    "bearer", "bearer_token", "client_secret", "conn_str", "connection_string", "cookie",
    "credential", "credentials", "dsn", "id_token", "jwt", "key_data", "ocp_apim_subscription_key",
    "passphrase", "passwd", "password", "private_key", "private_key_id", "proxy_authorization",
    "pwd", "refresh_token", "secret", "secret_access_key", "secret_key", "session_token",
    "set_cookie", "webhook_url", "x_amz_security_token"
  ]

  const SECRET_SUFFIXES: seq<string> := [
    "_api_key", "_api_token", "_access_key", "_access_token", "_authorization", "_auth_token",
    "_bearer_token", "_client_secret", "_cookie", "_credential", "_credentials", "_id_token",
    "_passphrase", "_password", "_passwd", "_private_key", "_proxy_authorization",
    "_refresh_token", "_secret", "_session_token", "_secret_key", "_set_cookie", "_token",
    "_account_key", "_encryption_key", "_master_key", "_signing_key", "_ssh_key",
    "_subscription_key", "_connection_string", "_dsn", "_webhook_url", "_pwd", "_pw",
    "_storage_key", "_key_data", "_app_key", "_auth_key"
  ]

  /** The names and suffixes a walk uses: the built-in ones, and the extra names of the
      run's own redaction policy. */
  datatype Rules = Rules(credentials: seq<string>, suffixes: seq<string>, extra: set<string>)

  /** The rules of a run whose policy adds these names. */
  function RulesWith(extra: set<string>): Rules {
    Rules(CREDENTIAL_NAMES, SECRET_SUFFIXES, extra)
  }

  const HEADERS: seq<string> := ["authorization", "proxy_authorization", "cookie", "set_cookie"]
  const FLAG_NAMES: seq<string> := ["token", "pass", "auth"]
  const LOOSE_NAMES: seq<string> := ["pass", "auth"]
  const AUTH_MODES: seq<string> := ["", "none", "basic", "bearer", "oauth", "oauth2", "api_key", "token"]
  const QUESTIONS: seq<string> := ["can", "could", "how", "should", "what", "when", "where", "which", "why"]
  const ARTICLES: seq<string> := ["a", "an", "the", "this"]
  const HEADER_NOUNS: seq<string> := ["field", "header", "label", "setting", "value"]
  const MASK := "[REDACTED]"

  // ----- characters -----

  predicate IsSpace(c: char) {
    || c == ' ' || '\t' <= c <= '\r' || '\U{1c}' <= c <= '\U{1f}' || c == '\U{85}' || c == '\U{a0}'
    || c == '\U{1680}' || '\U{2000}' <= c <= '\U{200a}' || c == '\U{2028}' || c == '\U{2029}'
    || c == '\U{202f}' || c == '\U{205f}' || c == '\U{3000}'
  }

  predicate IsQuote(c: char) {
    c == '\"' || c == '\''
  }

  predicate IsUpper(c: char) {
    'A' <= c <= 'Z'
  }

  predicate IsLowerOrDigit(c: char) {
    'a' <= c <= 'z' || '0' <= c <= '9'
  }

  predicate IsSeparator(c: char) {
    c == ':' || c == '='
  }

  /** What any test of digits says of the characters the name tests look at. */
  ghost predicate DigitLaws(test: char -> bool) {
    && (forall c :: '0' <= c <= '9' ==> test(c))
    && (forall c :: test(c) ==> !IsSpace(c) && !IsQuote(c) && !IsUpper(c) && !('a' <= c <= 'z') && !IsSeparator(c))
    && !test('-') && !test('_') && !test(',') && !test('[') && !test(']')
  }

  type DigitTest = test: char -> bool | DigitLaws(test) witness (c: char) => '0' <= c <= '9'

  /** str.isdigit of one character. It is any test with these laws: the digits of other scripts
      may or may not count. */
  const DIGIT: DigitTest

  predicate IsDigit(c: char): (d: bool)
    ensures '0' <= c <= '9' ==> d
    ensures d ==> !IsSpace(c) && !IsQuote(c) && !IsUpper(c) && !('a' <= c <= 'z') && !IsSeparator(c)
    ensures d ==> c !in ['-', '_', ',', '[', ']']
  {
    DIGIT(c)
  }

  function LowerAll(s: string): string {
    seq(|s|, i requires 0 <= i < |s| => LowerChar(s[i]))
  }

  function StripLeft(s: string, p: char -> bool): string {
    if s != [] && p(s[0]) then StripLeft(s[1..], p) else s
  }

  function StripRight(s: string, p: char -> bool): string {
    if s != [] && p(s[|s| - 1]) then StripRight(s[..|s| - 1], p) else s
  }

  function Strip(s: string, p: char -> bool): string {
    StripRight(StripLeft(s, p), p)
  }

  function Without(s: string, c: char): string {
    if s == [] then [] else (if s[0] == c then [] else [s[0]]) + Without(s[1..], c)
  }

  // ----- field names -----

  /** A word boundary of camelCase between s[i - 1] and s[i]. */
  predicate CamelBoundary(s: string, i: nat)
    requires i < |s|
  {
    i > 0 && IsUpper(s[i]) &&
    (IsLowerOrDigit(s[i - 1]) || (IsUpper(s[i - 1]) && i + 1 < |s| && 'a' <= s[i + 1] <= 'z'))
  }

  function CamelFrom(s: string, i: nat): string
    requires i <= |s|
    decreases |s| - i
  {
    if i == |s| then []
    else (if CamelBoundary(s, i) then ['_'] else []) + [s[i]] + CamelFrom(s, i + 1)
  }

  function Fold(c: char): char {
    if c == '-' then '_' else LowerChar(c)
  }

  function FoldAll(s: string): string {
    seq(|s|, i requires 0 <= i < |s| => Fold(s[i]))
  }

  /** _field_name: stripped, unquoted, snake_case. */
  function FieldName(s: string): string {
    FoldAll(CamelFrom(Strip(Strip(s, IsSpace), IsQuote), 0))
  }

  // ----- the names a run's policy may add -----

  const RESERVED_TO_M: seq<string> := [
    "billing", "cache", "causal_ids", "claim", "compatibility", "content", "cost", "created_at",
    "duration", "encoding", "error", "events", "evidence_ids", "extra_secret_keys",
    "format_version", "graph", "id", "inputs", "integrity", "kind", "legacy_refs", "manifest",
    "manifests", "metadata", "model", "model_info"
  ]

  const RESERVED_FROM_N: seq<string> := [
    "name", "order", "outputs", "parent_ids", "policies", "previous_id", "prompt_blob",
    "provider", "redact_secrets", "redaction", "refs", "role", "roots", "run_id", "schema",
    "signature", "signer", "source_run_id", "status", "steps", "ruleset", "system_blob",
    "system_prompt", "tags", "target_id", "timestamp", "tips", "tool_info", "transcript", "type",
    "usage", "user_prompt", "value"
  ]

  /** The field names of the run formats themselves. */
  const RESERVED_FIELD_NAMES := RESERVED_TO_M + RESERVED_FROM_N

  /** _secret_key_name: the field name a policy entry adds, unless it is unusable. */
  function PolicyName(entry: string): (name: Option<string>)
    ensures name.Some? ==> name.value == FieldName(entry) && name.value !in RESERVED_FIELD_NAMES
  {
    if Strip(entry, IsSpace) == [] || |entry| > 128 then None
    else
      var name := FieldName(entry);
      if name in RESERVED_FIELD_NAMES || name + "s" in RESERVED_FIELD_NAMES then None else Some(name)
  }

  /** The extra names some policies' entries add: all that run_redaction lets a walk have. */
  ghost predicate FromPolicy(extra: set<string>) {
    forall e :: e in extra ==> exists entry :: PolicyName(entry) == Some(e)
  }

  // ----- credential names -----

  predicate NameMatches(name: string, rules: Rules) {
    || name in rules.credentials || name in rules.extra
    || (exists suffix :: suffix in rules.suffixes && HasSuffix(name, suffix))
    || (exists suffix :: suffix in rules.suffixes && HasSuffix(Without(name, '_'), Without(suffix, '_')))
  }

  /** _secret_field: the name or its singular names a credential. */
  predicate SecretField(name: string, rules: Rules) {
    NameMatches(name, rules) || (HasSuffix(name, "s") && NameMatches(name[..|name| - 1], rules))
  }

  /** A name whose companion value is a credential: the test of pairs and header entries. */
  predicate CredentialName(name: string, rules: Rules) {
    name == "token" || name in HEADERS || SecretField(name, rules)
  }

  predicate HeaderName(name: string, rules: Rules) {
    name == "token" || SecretField(name, rules)
  }

  predicate TokenName(name: string) {
    HasSuffix(Without(name, '_'), "token") || HasSuffix(Without(name, '_'), "tokens")
  }

  /** Digits with thousands separators, surrounded by spaces. */
  predicate CounterText(s: string) {
    var digits := Without(Strip(s, IsSpace), ',');
    digits != [] && forall c :: c in digits ==> IsDigit(c)
  }

  // ----- label: value text -----

  predicate HasSeparator(s: string) {
    exists c :: c in s && IsSeparator(c)
  }

  /** Where the first of ':' and '=' stands, or the end. */
  function SeparatorAt(s: string): (k: nat)
    ensures k <= |s|
    ensures k < |s| <==> HasSeparator(s)
    ensures k < |s| ==> IsSeparator(s[k])
    ensures forall i :: 0 <= i < k ==> !IsSeparator(s[i])
  {
    if s == [] then 0
    else if IsSeparator(s[0]) then 0
    else
      assert forall c :: c in s <==> c == s[0] || c in s[1..];
      1 + SeparatorAt(s[1..])
  }

  function Label(s: string): string {
    s[..SeparatorAt(s)]
  }

  function Candidate(s: string): string
    requires HasSeparator(s)
  {
    s[SeparatorAt(s) + 1..]
  }

  /** The label and separator kept, the candidate masked. */
  function MaskedLabel(s: string): string
    requires HasSeparator(s)
  {
    s[..SeparatorAt(s) + 1] + " " + MASK
  }

  function FirstWord(s: string): string {
    if s == [] || IsSpace(s[0]) then [] else [s[0]] + FirstWord(s[1..])
  }

  /** The words of a stripped text. */
  function Words(s: string): seq<string>
    decreases |s|
  {
    if s == [] then []
    else if IsSpace(s[0]) then Words(s[1..])
    else
      FirstWordLength(s);
      [FirstWord(s)] + Words(s[|FirstWord(s)|..])
  }

  lemma FirstWordLength(s: string)
    ensures |FirstWord(s)| <= |s|
    ensures s != [] && !IsSpace(s[0]) ==> |FirstWord(s)| > 0
  {
  }

  predicate Prose(candidate: string) {
    var words := Words(LowerAll(Strip(candidate, IsSpace)));
    words != [] &&
    (words[0] in QUESTIONS || (|words| > 1 && words[0] in ARTICLES && words[1] in HEADER_NOUNS))
  }

  /** Whether free text names a credential whose value must be masked. */
  predicate SecretText(s: string, rules: Rules)
    requires HasSeparator(s)
  {
    var name := FieldName(Label(s));
    var stripped := Strip(Candidate(s), IsSpace);
    || name in HEADERS
    || (name == "token" && stripped != [] && IsQuote(stripped[0]))
    || (SecretField(name, rules) && !Prose(Candidate(s)) && !(TokenName(name) && CounterText(Candidate(s))))
  }

  function CleanText(s: string, rules: Rules): string {
    if HasSeparator(s) && SecretText(s, rules) then MaskedLabel(s) else s
  }

  /** _secret_flag: the name of a flag whose value is the next argument, or "". */
  function SecretFlag(s: string, rules: Rules): string {
    if s == [] || s[0] != '-' || |s| > 64 || '=' in s || (exists c :: c in s && IsSpace(c)) then ""
    else
      var name := FieldName(StripLeft(s, c => c == '-'));
      if name in FLAG_NAMES || SecretField(name, rules) then name else ""
  }
}
