/** The keyring-backed secret store: the two encrypted configuration blobs, the OAuth code
    dropped by the callback handler, and the operations that read and rewrite them. The keyring
    itself is a map from (service, name) to text. */
module Credentials {
  import opened Wrappers
  import opened ConfigCodec
  import opened Backend
  import Callback

  const MONZO_SERVICE: string := "monzo_bridge_monzo"
  const MONETR_SERVICE: string := "monzo_bridge_monetr"

  type Slot = (string, string)

  const MONZO_CONFIG: Slot := (MONZO_SERVICE, "config")
  const MONETR_CONFIG: Slot := (MONETR_SERVICE, "config")
  const AUTH_CODE: Slot := (MONZO_SERVICE, "auth_code")

  /** A JSON value of the bank-side configuration dict: a string or null. */
  datatype Field = Null | Str(s: string)

  /** The bank-side configuration: `client_id`, `client_secret`, `access_token`, `refresh_token`. */
  type MonzoConfig = map<string, Field>

  /** `keyring.get_password(service, name)`. */
  function Lookup(secrets: map<Slot, string>, slot: Slot): Option<string>
  {
    if slot in secrets then Some(secrets[slot]) else None
  }

  /** `load_monetr_config` / `load_monzo_config`: nothing for an absent or empty entry, else the
      entry decrypted (None where decryption fails). */
  function LoadConfig<C>(codec: JsonCodec<C>, secrets: map<Slot, string>, slot: Slot): Option<C>
  {
    match Lookup(secrets, slot)
    case None => None
    case Some(text) => if text == "" then None else DecryptConfig(codec, text)
  }

  /** `save_monetr_config` / `save_monzo_config`. */
  function SaveConfig<C>(codec: JsonCodec<C>, secrets: map<Slot, string>, slot: Slot, config: C): map<Slot, string>
  {
    secrets[slot := EncryptConfig(codec, config)]
  }

  /** A saved configuration loads back, and no other entry changes. */
  lemma LoadSaved<C>(codec: JsonCodec<C>, secrets: map<Slot, string>, slot: Slot, config: C)
    requires Serialisable(codec, config) && codec.dumps(config) != ""
    ensures LoadConfig(codec, SaveConfig(codec, secrets, slot, config), slot) == Some(config)
    ensures forall other :: other != slot ==>
      Lookup(SaveConfig(codec, secrets, slot, config), other) == Lookup(secrets, other)
  {
    EncryptConfigNonEmpty(codec, config);
    DecryptEncrypt(codec, config);
  }

  /** The configuration with both tokens replaced. */
  function WithTokens(config: MonzoConfig, access: string, refresh: string): MonzoConfig
  {
    config["access_token" := Str(access)]["refresh_token" := Str(refresh)]
  }

  /** `save_tokens`: rewrites the stored bank-side configuration with the new tokens, only when a
      non-empty configuration is stored and loads. */
  function TokensSaved(codec: JsonCodec<MonzoConfig>, secrets: map<Slot, string>, access: string, refresh: string): map<Slot, string>
  {
    match LoadConfig(codec, secrets, MONZO_CONFIG)
    case None => secrets
    case Some(config) =>
      if |config| == 0 then secrets else SaveConfig(codec, secrets, MONZO_CONFIG, WithTokens(config, access, refresh))
  }

  /** After `save_tokens` the stored configuration loads as the old one with only the two tokens
      changed, and no other keyring entry changes; without a stored configuration nothing changes. */
  lemma TokensSavedEffect(codec: JsonCodec<MonzoConfig>, secrets: map<Slot, string>, access: string, refresh: string)
    ensures forall other :: other != MONZO_CONFIG ==>
      Lookup(TokensSaved(codec, secrets, access, refresh), other) == Lookup(secrets, other)
    ensures (LoadConfig(codec, secrets, MONZO_CONFIG).None? || |LoadConfig(codec, secrets, MONZO_CONFIG).value| == 0)
            ==> TokensSaved(codec, secrets, access, refresh) == secrets
    ensures LoadConfig(codec, secrets, MONZO_CONFIG).Some? && |LoadConfig(codec, secrets, MONZO_CONFIG).value| > 0
            && Serialisable(codec, WithTokens(LoadConfig(codec, secrets, MONZO_CONFIG).value, access, refresh))
            && codec.dumps(WithTokens(LoadConfig(codec, secrets, MONZO_CONFIG).value, access, refresh)) != ""
            ==> var old_ := LoadConfig(codec, secrets, MONZO_CONFIG).value;
                var new_ := LoadConfig(codec, TokensSaved(codec, secrets, access, refresh), MONZO_CONFIG);
                new_.Some?
                && new_.value.Keys == old_.Keys + {"access_token", "refresh_token"}
                && new_.value["access_token"] == Str(access) && new_.value["refresh_token"] == Str(refresh)
                && forall k :: k in old_ && k != "access_token" && k != "refresh_token" ==> new_.value[k] == old_[k]
  {
    var loaded := LoadConfig(codec, secrets, MONZO_CONFIG);
    if loaded.Some? && |loaded.value| > 0 {
      var updated := WithTokens(loaded.value, access, refresh);
      if Serialisable(codec, updated) && codec.dumps(updated) != "" {
        LoadSaved(codec, secrets, MONZO_CONFIG, updated);
      }
    }
  }

  /** `load_saved_tokens`: the stored access token, if a non-empty configuration holds one. */
  function LoadSavedToken(codec: JsonCodec<MonzoConfig>, secrets: map<Slot, string>): Option<Field>
  {
    match LoadConfig(codec, secrets, MONZO_CONFIG)
    case None => None
    case Some(config) => if |config| > 0 && "access_token" in config then Some(config["access_token"]) else None
  }

  /** `clear_auth_code`: the code entry is removed; removing an absent one is not an error. */
  function AuthCodeCleared(secrets: map<Slot, string>): map<Slot, string>
  {
    secrets - {AUTH_CODE}
  }

  /** Clearing leaves no code and every other entry as it was, so clearing twice is clearing once. */
  lemma AuthCodeClearedEffect(secrets: map<Slot, string>)
    ensures Lookup(AuthCodeCleared(secrets), AUTH_CODE).None?
    ensures forall other :: other != AUTH_CODE ==> Lookup(AuthCodeCleared(secrets), other) == Lookup(secrets, other)
    ensures AuthCodeCleared(AuthCodeCleared(secrets)) == AuthCodeCleared(secrets)
  {
  }

  /** What the token endpoint answered: an exception (transport, `raise_for_status`, a missing
      field), or the two tokens. */
  datatype TokenReply = TokenRequestFailed | Granted(accessToken: string, refreshToken: string)

  /** The keyring, as the bridge's functions read and rewrite it. */
  class CredentialStore {
    var secrets: map<Slot, string>
    const monzoCodec: JsonCodec<MonzoConfig>
    const monetrCodec: JsonCodec<MonetrConfig>

    constructor (secrets: map<Slot, string>, monzoCodec: JsonCodec<MonzoConfig>, monetrCodec: JsonCodec<MonetrConfig>)
      ensures this.secrets == secrets && this.monzoCodec == monzoCodec && this.monetrCodec == monetrCodec
    {
      this.secrets := secrets;
      this.monzoCodec := monzoCodec;
      this.monetrCodec := monetrCodec;
    }

    function LoadMonzoConfig(): Option<MonzoConfig>
      reads this
    {
      LoadConfig(monzoCodec, secrets, MONZO_CONFIG)
    }

    function LoadMonetrConfig(): Option<MonetrConfig>
      reads this
    {
      LoadConfig(monetrCodec, secrets, MONETR_CONFIG)
    }

    /** `get_auth_code`. */
    function GetAuthCode(): Option<string>
      reads this
    {
      Lookup(secrets, AUTH_CODE)
    }

    method SaveMonzoConfig(config: MonzoConfig)
      modifies this
      ensures secrets == SaveConfig(monzoCodec, old(secrets), MONZO_CONFIG, config)
    {
      secrets := secrets[MONZO_CONFIG := EncryptConfig(monzoCodec, config)];
    }

    method SaveMonetrConfig(config: MonetrConfig)
      modifies this
      ensures secrets == SaveConfig(monetrCodec, old(secrets), MONETR_CONFIG, config)
    {
      secrets := secrets[MONETR_CONFIG := EncryptConfig(monetrCodec, config)];
    }

    /** `save_tokens(access_token, refresh_token)`. */
    method SaveTokens(access: string, refresh: string)
      modifies this
      ensures secrets == TokensSaved(monzoCodec, old(secrets), access, refresh)
    {
      var config := LoadMonzoConfig();
      if config.Some? && |config.value| > 0 {
        var updated := config.value["access_token" := Str(access)];
        updated := updated["refresh_token" := Str(refresh)];
        SaveMonzoConfig(updated);
      }
    }

    /** `clear_auth_code()`. */
    method ClearAuthCode()
      modifies this
      ensures secrets == AuthCodeCleared(old(secrets))
    {
      secrets := secrets - {AUTH_CODE};
    }

    /** `AuthHandler.do_GET`: the reply's status, with the code stored only on success. */
    method HandleCallback(path: string) returns (status: int)
      modifies this
      ensures var r := Callback.HandleCallback(path);
        status == r.status
        && secrets == if r.code.Some? then old(secrets)[AUTH_CODE := r.code.value] else old(secrets)
    {
      var reply := Callback.HandleCallback(path);
      if reply.code.Some? {
        secrets := secrets[AUTH_CODE := reply.code.value];
      }
      status := reply.status;
    }

    /** `exchange_auth_code`: without a stored (non-empty) bank-side configuration it raises before
        any request; otherwise a granted request saves both tokens, clears the code, and returns the
        access token, and a failed one raises leaving the keyring as it was. */
    method ExchangeAuthCode(reply: TokenReply) returns (r: Result<string>)
      modifies this
      ensures var config := old(LoadMonzoConfig());
        if config.None? || |config.value| == 0 then
          r == Err("Monzo configuration not found") && secrets == old(secrets)
        else if reply.TokenRequestFailed? then
          r.Err? && secrets == old(secrets)
        else
          r == Ok(reply.accessToken)
          && secrets == AuthCodeCleared(TokensSaved(monzoCodec, old(secrets), reply.accessToken, reply.refreshToken))
    {
      var config := LoadMonzoConfig();
      if config.None? || |config.value| == 0 {
        return Err("Monzo configuration not found");
      }
      if reply.TokenRequestFailed? {
        return Err("token request failed");
      }
      SaveTokens(reply.accessToken, reply.refreshToken);
      ClearAuthCode();
      r := Ok(reply.accessToken);
    }
  }

  /** After a granted exchange the code is gone, the tokens are stored in the configuration, and
      the backend's entry is untouched. */
  lemma ExchangeEffect(codec: JsonCodec<MonzoConfig>, secrets: map<Slot, string>, access: string, refresh: string)
    requires LoadConfig(codec, secrets, MONZO_CONFIG).Some? && |LoadConfig(codec, secrets, MONZO_CONFIG).value| > 0
    requires Serialisable(codec, WithTokens(LoadConfig(codec, secrets, MONZO_CONFIG).value, access, refresh))
    requires codec.dumps(WithTokens(LoadConfig(codec, secrets, MONZO_CONFIG).value, access, refresh)) != ""
    ensures var after := AuthCodeCleared(TokensSaved(codec, secrets, access, refresh));
      Lookup(after, AUTH_CODE).None?
      && LoadSavedToken(codec, after) == Some(Str(access))
      && Lookup(after, MONETR_CONFIG) == Lookup(secrets, MONETR_CONFIG)
  {
    var saved := TokensSaved(codec, secrets, access, refresh);
    TokensSavedEffect(codec, secrets, access, refresh);
    AuthCodeClearedEffect(saved);
    assert MONZO_CONFIG != AUTH_CODE && MONETR_CONFIG != MONZO_CONFIG && MONETR_CONFIG != AUTH_CODE;
    assert Lookup(AuthCodeCleared(saved), MONZO_CONFIG) == Lookup(saved, MONZO_CONFIG);
  }
}
