/** The interactive first-run setup: the backend form (`setup_monetr_config`), with its defaults,
    the bank account id warning and the verification login, and the bank application form
    (`setup_monzo_config`). Console lines and login outcomes are parameters. */
module Setup {
  import opened Wrappers
  import opened Strings
  import opened ConfigCodec
  import opened Backend
  import opened Credentials

  const DEFAULT_URL: string := "http://localhost:4000"

  /** `x = input(...).strip(); x = x if x else default`: an answer that is not blank is taken as
      the typed text between its leading and trailing whitespace, having dropped only whitespace;
      a blank one takes the default. */
  function Defaulted(line: string, default: string): (r: string)
    ensures Strip(line) != "" ==> r == Strip(line)
    ensures Strip(line) == "" ==> r == default
    ensures AllSpace(line) ==> r == default
    ensures r != default ==>
      r != [] && !IsSpace(r[0]) && !IsSpace(r[|r| - 1])
      && (var i := |line| - |StripStart(line)|;
          i + |r| <= |line| && r == line[i..i + |r|]
          && (forall j :: 0 <= j < i ==> IsSpace(line[j]))
          && (forall j :: i + |r| <= j < |line| ==> IsSpace(line[j])))
  {
    StripSlice(line);
    StripBlank(line);
    var v := Strip(line);
    if v != "" then v else default
  }

  /** The backend form from its four lines: URL, email, password, bank account id; blank answers
      keep the stored value, or the built-in default on a first run. */
  function ReadForm(existing: Option<MonetrConfig>, lines: seq<string>): MonetrConfig
    requires |lines| >= 4
  {
    var url := Defaulted(lines[0], if existing.Some? then existing.value.url else DEFAULT_URL);
    MonetrConfig(
      RStripChar(url, '/'),
      Defaulted(lines[1], if existing.Some? then existing.value.email else ""),
      Strip(lines[2]),
      Defaulted(lines[3], if existing.Some? then existing.value.bankAccountId else ""))
  }

  /** The form warns when the bank account id does not look like one. */
  predicate NeedsBankWarning(bankAccountId: string)
  {
    !StartsWith(bankAccountId, "bac_")
  }

  predicate IsYes(line: string)
  {
    Normalize(line) == "yes"
  }

  /** How the setup ends: saved after login number `attempt` succeeded, declined after a failed
      login, or the console closed first. */
  datatype SetupOutcome = Configured(config: MonetrConfig, attempt: nat) | Declined | InputExhausted

  /** What one round of the form leads to: an end, or a fresh round on the lines after the first
      `skip`, with the next login numbered `attempt`. */
  datatype Round = Done(outcome: SetupOutcome) | Again(skip: nat, attempt: nat)

  /** One round: the four answers, the confirmation a warned bank id needs (anything but `yes`
      starts over), the verification login, and after a failed login the retry question. */
  function SetupRound(existing: Option<MonetrConfig>, lines: seq<string>, loginOk: nat -> bool, attempt: nat): (r: Round)
    ensures r.Again? ==> 5 <= r.skip <= |lines| && attempt <= r.attempt
    ensures r.Done? && r.outcome.Configured? ==>
      |lines| >= 4 && r.outcome == Configured(ReadForm(existing, lines), attempt) && loginOk(attempt)
  {
    if |lines| < 4 then Done(InputExhausted)
    else
      var config := ReadForm(existing, lines);
      var warned := NeedsBankWarning(config.bankAccountId);
      if warned && |lines| == 4 then Done(InputExhausted)
      else if warned && !IsYes(lines[4]) then Again(5, attempt)
      else
        var used := if warned then 5 else 4;
        if loginOk(attempt) then Done(Configured(config, attempt))
        else if |lines| == used then Done(InputExhausted)
        else if IsYes(lines[used]) then Again(used + 1, attempt + 1)
        else Done(Declined)
  }

  /** `setup_monetr_config`, whose retries are recursive calls; `loginOk(k)` is whether the `k`-th
      verification login succeeds. */
  function SetupMonetr(existing: Option<MonetrConfig>, lines: seq<string>, loginOk: nat -> bool, attempt: nat): SetupOutcome
    decreases |lines|
  {
    match SetupRound(existing, lines, loginOk, attempt)
    case Done(outcome) => outcome
    case Again(skip, next) => SetupMonetr(existing, lines[skip..], loginOk, next)
  }

  /** Every form has a URL not ending with '/' and a stripped password. */
  lemma ReadFormShape(existing: Option<MonetrConfig>, lines: seq<string>)
    requires |lines| >= 4
    ensures var c := ReadForm(existing, lines);
      (c.url == [] || c.url[|c.url| - 1] != '/') && c.password == Strip(c.password)
  {
    RStripCharSpec(Defaulted(lines[0], if existing.Some? then existing.value.url else DEFAULT_URL), '/');
    StripSpec(lines[2]);
  }

  /** A saved backend configuration is the form of a round starting somewhere in the input, saved
      after a login that succeeded. */
  lemma {:induction false} SetupConfiguredFrom(existing: Option<MonetrConfig>, lines: seq<string>, loginOk: nat -> bool, attempt: nat)
    requires SetupMonetr(existing, lines, loginOk, attempt).Configured?
    ensures var r := SetupMonetr(existing, lines, loginOk, attempt);
      loginOk(r.attempt) && attempt <= r.attempt
      && exists k :: 0 <= k <= |lines| - 4 && r.config == ReadForm(existing, lines[k..])
    decreases |lines|
  {
    var r := SetupMonetr(existing, lines, loginOk, attempt);
    var round := SetupRound(existing, lines, loginOk, attempt);
    if round.Done? {
      assert r == round.outcome;
      assert lines[0..] == lines;
      assert r.config == ReadForm(existing, lines[0..]);
    } else {
      var rest := lines[round.skip..];
      assert r == SetupMonetr(existing, rest, loginOk, round.attempt);
      SetupConfiguredFrom(existing, rest, loginOk, round.attempt);
      var k :| 0 <= k <= |rest| - 4 && r.config == ReadForm(existing, rest[k..]);
      assert rest[k..] == lines[round.skip + k..];
    }
  }

  /** A saved backend configuration: its URL does not end with '/', its password is stripped, and
      its verification login succeeded. */
  lemma SetupConfiguredShape(existing: Option<MonetrConfig>, lines: seq<string>, loginOk: nat -> bool, attempt: nat)
    requires SetupMonetr(existing, lines, loginOk, attempt).Configured?
    ensures var r := SetupMonetr(existing, lines, loginOk, attempt);
      loginOk(r.attempt)
      && (r.config.url == [] || r.config.url[|r.config.url| - 1] != '/')
      && r.config.password == Strip(r.config.password)
  {
    var r := SetupMonetr(existing, lines, loginOk, attempt);
    SetupConfiguredFrom(existing, lines, loginOk, attempt);
    var k :| 0 <= k <= |lines| - 4 && r.config == ReadForm(existing, lines[k..]);
    ReadFormShape(existing, lines[k..]);
  }

  /** Blank answers keep the stored values (the URL without its trailing '/'); on a first run they
      give the built-in URL and empty email and bank id. */
  lemma ReadFormDefaults(existing: Option<MonetrConfig>, lines: seq<string>)
    requires |lines| >= 4 && Strip(lines[0]) == "" && Strip(lines[1]) == "" && Strip(lines[3]) == ""
    ensures existing.Some? ==>
      ReadForm(existing, lines) == MonetrConfig(RStripChar(existing.value.url, '/'), existing.value.email,
                                                Strip(lines[2]), existing.value.bankAccountId)
    ensures existing.None? ==> ReadForm(existing, lines) == MonetrConfig(DEFAULT_URL, "", Strip(lines[2]), "")
  {
    if existing.None? {
      assert RStripChar(DEFAULT_URL, '/') == DEFAULT_URL by {
        assert DEFAULT_URL[|DEFAULT_URL| - 1] == '0';
      }
    }
  }

  /** A bank id that does not start with `bac_` is warned about: unless the warning is confirmed
      the form starts again on the next lines, with the same login number; once confirmed, a
      successful login saves the form as typed. An id that does start with `bac_` is not asked
      about, so the login follows the four answers directly. */
  lemma BankIdWarned(existing: Option<MonetrConfig>, lines: seq<string>, loginOk: nat -> bool, attempt: nat)
    requires |lines| >= 5
    ensures NeedsBankWarning(ReadForm(existing, lines).bankAccountId) && !IsYes(lines[4]) ==>
      SetupMonetr(existing, lines, loginOk, attempt) == SetupMonetr(existing, lines[5..], loginOk, attempt)
    ensures NeedsBankWarning(ReadForm(existing, lines).bankAccountId) && IsYes(lines[4]) && loginOk(attempt) ==>
      SetupMonetr(existing, lines, loginOk, attempt) == Configured(ReadForm(existing, lines), attempt)
    ensures !NeedsBankWarning(ReadForm(existing, lines).bankAccountId) && loginOk(attempt) ==>
      SetupMonetr(existing, lines, loginOk, attempt) == Configured(ReadForm(existing, lines), attempt)
    ensures !NeedsBankWarning(ReadForm(existing, lines).bankAccountId) && !loginOk(attempt) && IsYes(lines[4]) ==>
      SetupMonetr(existing, lines, loginOk, attempt) == SetupMonetr(existing, lines[5..], loginOk, attempt + 1)
  {
    assert SetupMonetr(existing, lines, loginOk, attempt) ==
      match SetupRound(existing, lines, loginOk, attempt)
      case Done(outcome) => outcome
      case Again(skip, next) => SetupMonetr(existing, lines[skip..], loginOk, next);
  }

  /** A first run with an empty bank id is warned about, and the form starts again unless the
      warning is confirmed. */
  lemma BlankBankIdWarned(lines: seq<string>, loginOk: nat -> bool, attempt: nat)
    requires |lines| >= 5 && Strip(lines[3]) == "" && !IsYes(lines[4])
    ensures NeedsBankWarning(ReadForm(None, lines).bankAccountId)
    ensures SetupMonetr(None, lines, loginOk, attempt) == SetupMonetr(None, lines[5..], loginOk, attempt)
  {
    BankIdWarned(None, lines, loginOk, attempt);
  }

  /** `setup_monetr_config()` against the store: on success the configuration is saved, otherwise
      the store is untouched; each retry reloads the same stored defaults. */
  method SetupMonetrConfig(store: CredentialStore, lines: seq<string>, loginOk: nat -> bool, attempt: nat)
    returns (outcome: SetupOutcome)
    modifies store
    ensures outcome == SetupMonetr(old(store.LoadMonetrConfig()), lines, loginOk, attempt)
    ensures store.secrets == if outcome.Configured? then SaveConfig(store.monetrCodec, old(store.secrets), MONETR_CONFIG, outcome.config)
                             else old(store.secrets)
    decreases |lines|
  {
    var existing := store.LoadMonetrConfig();
    if |lines| < 4 {
      return InputExhausted;
    }
    var config := ReadForm(existing, lines);
    var used := 4;
    if NeedsBankWarning(config.bankAccountId) {
      if |lines| == 4 {
        return InputExhausted;
      }
      if !IsYes(lines[4]) {
        outcome := SetupMonetrConfig(store, lines[5..], loginOk, attempt);
        return;
      }
      used := 5;
    }
    if loginOk(attempt) {
      store.SaveMonetrConfig(config);
      return Configured(config, attempt);
    }
    if |lines| == used {
      return InputExhausted;
    }
    if IsYes(lines[used]) {
      outcome := SetupMonetrConfig(store, lines[used + 1..], loginOk, attempt + 1);
      return;
    }
    return Declined;
  }

  /** `setup_monzo_config` from its two lines: the client id (a blank one keeps the stored value),
      the client secret, and no tokens yet. */
  function SetupMonzo(existing: Option<MonzoConfig>, clientIdLine: string, secretLine: string): MonzoConfig
  {
    var default := if existing.Some? && |existing.value| > 0 && "client_id" in existing.value
                   then existing.value["client_id"] else Str("");
    var clientId := Strip(clientIdLine);
    map["client_id" := if clientId != "" then Str(clientId) else default,
        "client_secret" := Str(Strip(secretLine)),
        "access_token" := Null,
        "refresh_token" := Null]
  }

  /** The bank application configuration has exactly its four keys and no tokens, and once saved
      it is what the store loads. */
  lemma SetupMonzoSaved(codec: JsonCodec<MonzoConfig>, secrets: map<Slot, string>, existing: Option<MonzoConfig>,
                        clientIdLine: string, secretLine: string)
    requires Serialisable(codec, SetupMonzo(existing, clientIdLine, secretLine))
    requires codec.dumps(SetupMonzo(existing, clientIdLine, secretLine)) != ""
    ensures var c := SetupMonzo(existing, clientIdLine, secretLine);
      c.Keys == {"client_id", "client_secret", "access_token", "refresh_token"}
      && c["access_token"] == Null && c["refresh_token"] == Null
      && c["client_secret"] == Str(Strip(secretLine))
      && (Strip(clientIdLine) != "" ==> c["client_id"] == Str(Strip(clientIdLine)))
      && (Strip(clientIdLine) == "" && existing.None? ==> c["client_id"] == Str(""))
      && LoadConfig(codec, SaveConfig(codec, secrets, MONZO_CONFIG, c), MONZO_CONFIG) == Some(c)
  {
    LoadSaved(codec, secrets, MONZO_CONFIG, SetupMonzo(existing, clientIdLine, secretLine));
  }

  /** `setup_monzo_config()` against the store. */
  method SetupMonzoConfig(store: CredentialStore, clientIdLine: string, secretLine: string) returns (config: MonzoConfig)
    modifies store
    ensures config == SetupMonzo(old(store.LoadMonzoConfig()), clientIdLine, secretLine)
    ensures store.secrets == SaveConfig(store.monzoCodec, old(store.secrets), MONZO_CONFIG, config)
  {
    var existing := store.LoadMonzoConfig();
    config := SetupMonzo(existing, clientIdLine, secretLine);
    store.SaveMonzoConfig(config);
  }
}
