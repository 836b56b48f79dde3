/** Redaction of the metadata stored with a notification delivery. */
module DeliveryRedaction {
  import Text

  /** A metadata value; Unsupported is any dynamic type the sanitiser does not know. */
  datatype Value =
    | Null | Bool(flag: bool) | Number(number: real) | Str(text: string)
    | List(items: seq<Value>) | Object(fields: map<string, Value>) | Unsupported

  type Metadata = map<string, Value>

  /** Whether a string parses as a URL with a scheme and user information. */
  type UserInfo = string -> bool

  const MARKER := "<redacted>"

  const SECRET_KEY_PARTS := [
    "webhook_url", "token", "secret", "password", "passwd", "private_key", "credential", "authorization", "stream_key",
    "refresh_token", "access_token", "client_secret", "api_key", "apikey"
  ]

  const SECRET_VALUE_PARTS := [
    "discord.com/api/webhooks/", "hooks.slack.com/services/", "token=", "access_token", "refresh_token", "authorization",
    "bearer ", "private_key", "password", "secret", "credential", "-----begin private key-----", "ast_svc_", "ast_ingest_v1."
  ]

  const SENSITIVE_AUDIT_ACTIONS := {
    "api_tokens.create", "api_tokens.revoke", "api_tokens.rotate", "auth.change_password",
    "integrations.runtime_secret.read", "integrations.runtime_secret.resolve", "nodes.configure_token.rotate",
    "nodes.registration_token.create", "nodes.runtime_token.rotate", "secrets.update",
    "services.runtime_secret.resolve", "users.force_password_change", "users.reset_password"
  }

  predicate HasPart(s: string, parts: seq<string>) {
    exists i :: 0 <= i < |parts| && Text.Contains(s, parts[i])
  }

  predicate SecretKey(key: string) {
    HasPart(Text.ToLower(Text.TrimSpace(key)), SECRET_KEY_PARTS)
  }

  predicate SecretValue(value: string, userInfo: UserInfo) {
    var t := Text.TrimSpace(value);
    if t == "" || t == MARKER || t == "****" then false
    else if Text.Contains(t, MARKER) || Text.Contains(t, "<WEBHOOK_PATH>") then true
    else HasPart(Text.ToLower(t), SECRET_VALUE_PARTS) || userInfo(t)
  }

  predicate IsWord(c: char) {
    'A' <= c <= 'Z' || 'a' <= c <= 'z' || '0' <= c <= '9' || c == '_'
  }

  /** At least two words joined by single dots. */
  predicate Dotted(s: string) {
    && (forall i :: 0 <= i < |s| ==> IsWord(s[i]) || (s[i] == '.' && 0 < i < |s| - 1 && IsWord(s[i - 1]) && IsWord(s[i + 1])))
    && '.' in s
  }

  /** A string that may be kept as an audit action once trimmed. */
  predicate IsAuditAction(value: string, userInfo: UserInfo) {
    var action := Text.TrimSpace(value);
    && action != "" && |action| <= 128 && Dotted(action)
    && (!SecretValue(action, userInfo) || action in SENSITIVE_AUDIT_ACTIONS)
  }

  predicate AuditKey(key: string) {
    var k := Text.ToLower(Text.TrimSpace(key));
    k == "action" || k == "rule"
  }

  predicate Preserved(key: string, value: Value, preserve: bool, userInfo: UserInfo) {
    preserve && AuditKey(key) && value.Str? && IsAuditAction(value.text, userInfo)
  }

  function SanitizedValue(value: Value, userInfo: UserInfo): Value
    decreases value, 0
  {
    match value
    case Str(s) => if SecretValue(s, userInfo) then Str(MARKER) else value
    case List(items) => List(seq(|items|, i requires 0 <= i < |items| => SanitizedValue(items[i], userInfo)))
    case Object(fields) => Object(map key | key in fields :: SanitizedField(key, fields[key], false, userInfo))
    case Unsupported => Null
    case _ => value
  }

  function SanitizedField(key: string, value: Value, preserve: bool, userInfo: UserInfo): Value
    decreases value, 1
  {
    if Preserved(key, value, preserve, userInfo) then Str(Text.TrimSpace(value.text))
    else if SecretKey(key) then Str(MARKER)
    else SanitizedValue(value, userInfo)
  }

  function Sanitized(metadata: Metadata, preserve: bool, userInfo: UserInfo): Metadata {
    map key | key in metadata :: SanitizedField(key, metadata[key], preserve, userInfo)
  }

  // ---- What is safe to store ----

  /** No string leaf looks like a secret, and a secret-named key holds the marker only, at every depth. */
  predicate Clean(value: Value, userInfo: UserInfo) {
    match value
    case Str(s) => !SecretValue(s, userInfo)
    case List(items) => forall i :: 0 <= i < |items| ==> Clean(items[i], userInfo)
    case Object(fields) => forall key :: key in fields ==> if SecretKey(key) then fields[key] == Str(MARKER) else Clean(fields[key], userInfo)
    case Unsupported => false
    case _ => true
  }

  /** As Clean, except that a top-level audit action may stay, trimmed. */
  predicate CleanField(key: string, value: Value, preserve: bool, userInfo: UserInfo) {
    if Preserved(key, value, preserve, userInfo) then Text.Trimmed(value.text)
    else if SecretKey(key) then value == Str(MARKER)
    else Clean(value, userInfo)
  }

  predicate CleanMetadata(metadata: Metadata, preserve: bool, userInfo: UserInfo) {
    forall key :: key in metadata ==> CleanField(key, metadata[key], preserve, userInfo)
  }

  lemma MarkerIsClean(userInfo: UserInfo)
    ensures !SecretValue(MARKER, userInfo) && !IsAuditAction(MARKER, userInfo)
  {
    Text.TrimSpaceLaws(MARKER);
    assert Text.TrimSpace(MARKER) == MARKER && MARKER[0] == '<';
  }

  /** Sanitising leaves only what is safe. */
  lemma {:induction false} ValueClean(value: Value, userInfo: UserInfo)
    ensures Clean(SanitizedValue(value, userInfo), userInfo)
    decreases value
  {
    MarkerIsClean(userInfo);
    match value
    case List(items) =>
      forall i | 0 <= i < |items|
        ensures Clean(SanitizedValue(items[i], userInfo), userInfo)
      {
        ValueClean(items[i], userInfo);
      }
    case Object(fields) =>
      forall key | key in fields
        ensures Clean(SanitizedValue(fields[key], userInfo), userInfo)
      {
        ValueClean(fields[key], userInfo);
      }
      ObjectClean(fields, userInfo);
    case _ =>
  }

  lemma ObjectClean(fields: map<string, Value>, userInfo: UserInfo)
    requires forall key :: key in fields ==> Clean(SanitizedValue(fields[key], userInfo), userInfo)
    ensures Clean(SanitizedValue(Object(fields), userInfo), userInfo)
  {
    var out := SanitizedValue(Object(fields), userInfo).fields;
    forall key | key in fields
      ensures if SecretKey(key) then out[key] == Str(MARKER) else Clean(out[key], userInfo)
    {
      assert out[key] == SanitizedField(key, fields[key], false, userInfo);
    }
  }

  lemma ListFixed(items: seq<Value>, userInfo: UserInfo)
    requires forall i :: 0 <= i < |items| ==> (SanitizedValue(items[i], userInfo) == items[i] <==> Clean(items[i], userInfo))
    ensures SanitizedValue(List(items), userInfo) == List(items) <==> Clean(List(items), userInfo)
  {
    var out := SanitizedValue(List(items), userInfo).items;
    assert forall i :: 0 <= i < |items| ==> out[i] == SanitizedValue(items[i], userInfo);
    assert out == items <==> forall i :: 0 <= i < |items| ==> out[i] == items[i];
  }

  lemma FieldFixed(key: string, value: Value, userInfo: UserInfo)
    requires SanitizedValue(value, userInfo) == value <==> Clean(value, userInfo)
    ensures SanitizedField(key, value, false, userInfo) == value <==> if SecretKey(key) then value == Str(MARKER) else Clean(value, userInfo)
  {
  }

  lemma ObjectFixed(fields: map<string, Value>, userInfo: UserInfo)
    requires forall key :: key in fields ==> (SanitizedValue(fields[key], userInfo) == fields[key] <==> Clean(fields[key], userInfo))
    ensures SanitizedValue(Object(fields), userInfo) == Object(fields) <==> Clean(Object(fields), userInfo)
  {
    var out := SanitizedValue(Object(fields), userInfo).fields;
    forall key | key in fields
      ensures out[key] == fields[key] <==> if SecretKey(key) then fields[key] == Str(MARKER) else Clean(fields[key], userInfo)
    {
      FieldFixed(key, fields[key], userInfo);
    }
    assert out == fields <==> forall key :: key in fields ==> out[key] == fields[key];
  }

  /** Sanitising changes nothing exactly when the value is safe already. */
  lemma {:induction false} ValueFixedIffClean(value: Value, userInfo: UserInfo)
    ensures SanitizedValue(value, userInfo) == value <==> Clean(value, userInfo)
    decreases value
  {
    match value
    case Str(s) =>
      MarkerIsClean(userInfo);
    case List(items) =>
      forall i | 0 <= i < |items|
        ensures SanitizedValue(items[i], userInfo) == items[i] <==> Clean(items[i], userInfo)
      {
        ValueFixedIffClean(items[i], userInfo);
      }
      ListFixed(items, userInfo);
    case Object(fields) =>
      forall key | key in fields
        ensures SanitizedValue(fields[key], userInfo) == fields[key] <==> Clean(fields[key], userInfo)
      {
        ValueFixedIffClean(fields[key], userInfo);
      }
      ObjectFixed(fields, userInfo);
    case _ =>
  }

  lemma FieldClean(key: string, value: Value, preserve: bool, userInfo: UserInfo)
    ensures CleanField(key, SanitizedField(key, value, preserve, userInfo), preserve, userInfo)
  {
    MarkerIsClean(userInfo);
    if Preserved(key, value, preserve, userInfo) {
      Text.TrimSpaceLaws(value.text);
    } else if !SecretKey(key) {
      ValueClean(value, userInfo);
      var out := SanitizedValue(value, userInfo);
      assert out.Str? ==> out == value || out == Str(MARKER);
    }
  }

  lemma FieldFixedIffClean(key: string, value: Value, preserve: bool, userInfo: UserInfo)
    ensures SanitizedField(key, value, preserve, userInfo) == value <==> CleanField(key, value, preserve, userInfo)
  {
    if Preserved(key, value, preserve, userInfo) {
      Text.TrimSpaceLaws(value.text);
    } else {
      ValueFixedIffClean(value, userInfo);
    }
  }

  /** The sanitised metadata has the same keys, is safe at every depth, and what is safe is exactly what sanitising keeps
      as it is. */
  lemma SanitizedSafe(metadata: Metadata, preserve: bool, userInfo: UserInfo)
    ensures var out := Sanitized(metadata, preserve, userInfo);
            out.Keys == metadata.Keys && CleanMetadata(out, preserve, userInfo)
    ensures Sanitized(metadata, preserve, userInfo) == metadata <==> CleanMetadata(metadata, preserve, userInfo)
  {
    var out := Sanitized(metadata, preserve, userInfo);
    forall key | key in metadata
      ensures CleanField(key, out[key], preserve, userInfo)
      ensures out[key] == metadata[key] <==> CleanField(key, metadata[key], preserve, userInfo)
    {
      FieldClean(key, metadata[key], preserve, userInfo);
      FieldFixedIffClean(key, metadata[key], preserve, userInfo);
    }
    assert out == metadata <==> forall key :: key in metadata ==> out[key] == metadata[key];
  }

  /** Sanitising on the way in and again on the way out gives what was stored. */
  lemma SanitizedTwice(metadata: Metadata, preserve: bool, userInfo: UserInfo)
    ensures var out := Sanitized(metadata, preserve, userInfo);
            Sanitized(out, preserve, userInfo) == out
  {
    SanitizedSafe(metadata, preserve, userInfo);
    SanitizedSafe(Sanitized(metadata, preserve, userInfo), preserve, userInfo);
  }

  // ---- The same safety, told letter by letter ----

  /** One of the parts stands somewhere in the string, in whatever letter case. */
  ghost predicate Spelled(s: string, parts: seq<string>) {
    exists n, i :: 0 <= n < |parts| && Text.SpelledAt(s, parts[n], i)
  }

  /** Between white space the key spells one of the parts. */
  ghost predicate NamesSecret(key: string) {
    exists t :: Text.Trims(key, t) && Spelled(t, SECRET_KEY_PARTS)
  }

  /** Between white space the value is not a mask, and it holds a mask, spells one of the parts or is a URL with user information. */
  ghost predicate LooksSecret(value: string, userInfo: UserInfo) {
    exists t :: Text.Trims(value, t) && t != "" && t != MARKER && t != "****"
      && ((exists i :: Text.At(t, MARKER, i) || Text.At(t, "<WEBHOOK_PATH>", i)) || Spelled(t, SECRET_VALUE_PARTS) || userInfo(t))
  }

  lemma KeyPartsUncapital(n: nat)
    requires n < |SECRET_KEY_PARTS|
    ensures Text.Uncapital(SECRET_KEY_PARTS[n])
  {
  }

  lemma EarlyValuePartsUncapital(n: nat)
    requires n < 7
    ensures Text.Uncapital(SECRET_VALUE_PARTS[n])
  {
  }

  lemma LateValuePartsUncapital(n: nat)
    requires 7 <= n < |SECRET_VALUE_PARTS|
    ensures Text.Uncapital(SECRET_VALUE_PARTS[n])
  {
  }

  lemma SpelledIff(s: string, parts: seq<string>)
    requires forall n :: 0 <= n < |parts| ==> Text.Uncapital(parts[n])
    ensures HasPart(Text.ToLower(s), parts) <==> Spelled(s, parts)
  {
    forall n | 0 <= n < |parts|
      ensures Text.Contains(Text.ToLower(s), parts[n]) <==> exists i :: Text.SpelledAt(s, parts[n], i)
    {
      Text.LowerContains(s, parts[n]);
    }
  }

  lemma SecretKeyIff(key: string)
    ensures SecretKey(key) <==> NamesSecret(key)
  {
    var t := Text.TrimSpace(key);
    forall n | 0 <= n < |SECRET_KEY_PARTS|
      ensures Text.Uncapital(SECRET_KEY_PARTS[n])
    {
      KeyPartsUncapital(n);
    }
    SpelledIff(t, SECRET_KEY_PARTS);
    forall u
      ensures Text.Trims(key, u) <==> u == t
    {
      Text.TrimSpaceIff(key, u);
    }
  }

  lemma SecretValueIff(value: string, userInfo: UserInfo)
    ensures SecretValue(value, userInfo) <==> LooksSecret(value, userInfo)
  {
    var t := Text.TrimSpace(value);
    forall n | 0 <= n < |SECRET_VALUE_PARTS|
      ensures Text.Uncapital(SECRET_VALUE_PARTS[n])
    {
      if n < 7 {
        EarlyValuePartsUncapital(n);
      } else {
        LateValuePartsUncapital(n);
      }
    }
    SpelledIff(t, SECRET_VALUE_PARTS);
    Text.ContainsAt(t, MARKER);
    Text.ContainsAt(t, "<WEBHOOK_PATH>");
    forall u
      ensures Text.Trims(value, u) <==> u == t
    {
      Text.TrimSpaceIff(value, u);
    }
  }

  /** At every depth a key that names a secret holds the marker and no other string looks like one. */
  ghost predicate Hides(value: Value, userInfo: UserInfo) {
    match value
    case Str(s) => !LooksSecret(s, userInfo)
    case List(items) => forall i :: 0 <= i < |items| ==> Hides(items[i], userInfo)
    case Object(fields) => forall key :: key in fields ==> if NamesSecret(key) then fields[key] == Str(MARKER) else Hides(fields[key], userInfo)
    case Unsupported => false
    case _ => true
  }

  lemma {:induction false} CleanHides(value: Value, userInfo: UserInfo)
    requires Clean(value, userInfo)
    ensures Hides(value, userInfo)
    decreases value
  {
    match value
    case Str(s) =>
      SecretValueIff(s, userInfo);
    case List(items) =>
      forall i | 0 <= i < |items|
        ensures Hides(items[i], userInfo)
      {
        CleanHides(items[i], userInfo);
      }
    case Object(fields) =>
      forall key | key in fields
        ensures if NamesSecret(key) then fields[key] == Str(MARKER) else Hides(fields[key], userInfo)
      {
        SecretKeyIff(key);
        if !SecretKey(key) {
          CleanHides(fields[key], userInfo);
        }
      }
    case _ =>
  }

  lemma KeyPartShape(n: nat)
    requires n < |SECRET_KEY_PARTS|
    ensures var part := SECRET_KEY_PARTS[n]; |part| >= 5 && (|part| > 6 || part[1] == 'o' || part[1] == 'e' || part[1] == 'a' || part[1] == 'p')
  {
  }

  lemma AuditKeyNotSecret(key: string)
    requires AuditKey(key)
    ensures !SecretKey(key)
  {
    var k := Text.ToLower(Text.TrimSpace(key));
    forall n, i | 0 <= n < |SECRET_KEY_PARTS|
      ensures !Text.At(k, SECRET_KEY_PARTS[n], i)
    {
      KeyPartShape(n);
    }
    forall n | 0 <= n < |SECRET_KEY_PARTS|
      ensures !Text.Contains(k, SECRET_KEY_PARTS[n])
    {
      Text.ContainsAt(k, SECRET_KEY_PARTS[n]);
    }
  }

  /** An audit action that may stay: at most 128 characters of words joined by dots, and if it looks like a secret one of the listed actions. */
  ghost predicate KeptAction(text: string, userInfo: UserInfo) {
    0 < |text| <= 128 && Text.Trimmed(text) && Dotted(text) && (LooksSecret(text, userInfo) ==> text in SENSITIVE_AUDIT_ACTIONS)
  }

  /** In sanitised metadata every key that names a secret holds the marker, without exception, and everything else hides its secrets or, only where
      audit actions are kept, is one. */
  lemma SecretsHidden(metadata: Metadata, preserve: bool, userInfo: UserInfo, key: string)
    requires key in metadata
    ensures var out := Sanitized(metadata, preserve, userInfo)[key];
            if NamesSecret(key) then out == Str(MARKER)
            else Hides(out, userInfo) || (preserve && out.Str? && KeptAction(out.text, userInfo))
  {
    var out := Sanitized(metadata, preserve, userInfo)[key];
    SecretKeyIff(key);
    FieldClean(key, metadata[key], preserve, userInfo);
    if Preserved(key, metadata[key], preserve, userInfo) {
      AuditKeyNotSecret(key);
      Text.TrimSpaceLaws(metadata[key].text);
      SecretValueIff(out.text, userInfo);
    } else if !SecretKey(key) {
      ValueClean(metadata[key], userInfo);
      CleanHides(out, userInfo);
    }
  }

  // ---- The loops ----

  method SanitizeDeliveryMetadata(metadata: Metadata, preserve: bool, userInfo: UserInfo) returns (out: Metadata)
    ensures out == Sanitized(metadata, preserve, userInfo)
    decreases Object(metadata), 0
  {
    out := map[];
    var pending := metadata.Keys;
    while pending != {}
      invariant pending <= metadata.Keys && out.Keys == metadata.Keys - pending
      invariant forall key :: key in out ==> out[key] == SanitizedField(key, metadata[key], preserve, userInfo)
      decreases pending
    {
      var key :| key in pending;
      pending := pending - {key};
      var value := metadata[key];
      if Preserved(key, value, preserve, userInfo) {
        out := out[key := Str(Text.TrimSpace(value.text))];
      } else if SecretKey(key) {
        out := out[key := Str(MARKER)];
      } else {
        var inner := SanitizeDeliveryMetadataValue(value, userInfo);
        out := out[key := inner];
      }
    }
  }

  method SanitizeDeliveryMetadataValue(value: Value, userInfo: UserInfo) returns (out: Value)
    ensures out == SanitizedValue(value, userInfo)
    decreases value, 1
  {
    match value
    case Str(s) =>
      out := if SecretValue(s, userInfo) then Str(MARKER) else value;
    case List(items) =>
      var clean: seq<Value> := [];
      for i := 0 to |items|
        invariant |clean| == i && forall j :: 0 <= j < i ==> clean[j] == SanitizedValue(items[j], userInfo)
      {
        var item := SanitizeDeliveryMetadataValue(items[i], userInfo);
        clean := clean + [item];
      }
      out := List(clean);
    case Object(fields) =>
      var inner := SanitizeDeliveryMetadata(fields, false, userInfo);
      out := Object(inner);
    case Unsupported =>
      out := Null;
    case _ =>
      out := value;
  }
}
