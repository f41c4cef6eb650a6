/** `main`'s start-up: which access token the monitor is started with. The authorisation flow
    (callback, code exchange, app approval) runs only when no usable token is saved; its result is
    a parameter. */
module Bridge {
  import opened Wrappers
  import opened ConfigCodec
  import opened Credentials

  /** How start-up ends: monitoring with an access token, or stopped with a message. */
  datatype Start = Monitoring(accessToken: string) | Stopped(reason: string)

  /** `if not access_token`: nothing saved, a null, or an empty string. */
  predicate UsableToken(saved: Option<Field>)
  {
    saved.Some? && saved.value.Str? && saved.value.s != ""
  }

  /** Step 3 of `main`: the saved token if there is a usable one, else the one the authorisation
      flow obtained (None where the flow raised or the approval prompt was left). */
  function StartupToken(codec: JsonCodec<MonzoConfig>, secrets: map<Slot, string>, authorised: Option<string>): (r: Start)
    ensures UsableToken(LoadSavedToken(codec, secrets)) ==> r == Monitoring(LoadSavedToken(codec, secrets).value.s)
    ensures !UsableToken(LoadSavedToken(codec, secrets)) ==>
      (r.Monitoring? <==> authorised.Some?) && (r.Monitoring? ==> r.accessToken == authorised.value)
  {
    var saved := LoadSavedToken(codec, secrets);
    if UsableToken(saved) then Monitoring(saved.value.s)
    else match authorised
      case None => Stopped("authorisation not completed")
      case Some(token) => Monitoring(token)
  }

  /** The authorisation flow matters only without a usable saved token: with one, start-up does
      not depend on the flow's result at all; without one, monitoring starts exactly when the flow
      produced a token, and with that token. */
  lemma StartupChoice(codec: JsonCodec<MonzoConfig>, secrets: map<Slot, string>, a1: Option<string>, a2: Option<string>)
    ensures UsableToken(LoadSavedToken(codec, secrets)) ==>
      StartupToken(codec, secrets, a1) == StartupToken(codec, secrets, a2)
      && StartupToken(codec, secrets, a1).Monitoring? && StartupToken(codec, secrets, a1).accessToken != ""
    ensures StartupToken(codec, secrets, a1).Monitoring? <==> UsableToken(LoadSavedToken(codec, secrets)) || a1.Some?
    ensures StartupToken(codec, secrets, None).Monitoring? ==> UsableToken(LoadSavedToken(codec, secrets))
    ensures !UsableToken(LoadSavedToken(codec, secrets)) && a1.Some? ==> StartupToken(codec, secrets, a1) == Monitoring(a1.value)
  {
  }

  /** The run after a granted code exchange starts monitoring with the token that exchange saved,
      without authorising again. */
  lemma SecondRunResumes(codec: JsonCodec<MonzoConfig>, secrets: map<Slot, string>, access: string, refresh: string,
                         authorised: Option<string>)
    requires access != ""
    requires LoadConfig(codec, secrets, MONZO_CONFIG).Some? && |LoadConfig(codec, secrets, MONZO_CONFIG).value| > 0
    requires Serialisable(codec, WithTokens(LoadConfig(codec, secrets, MONZO_CONFIG).value, access, refresh))
    requires codec.dumps(WithTokens(LoadConfig(codec, secrets, MONZO_CONFIG).value, access, refresh)) != ""
    ensures StartupToken(codec, AuthCodeCleared(TokensSaved(codec, secrets, access, refresh)), authorised) == Monitoring(access)
  {
    ExchangeEffect(codec, secrets, access, refresh);
  }
}
