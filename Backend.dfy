/** `LocalAPIClient`, the budgeting backend's client: the JSON record posted for a transaction,
    the sign convention, the date format, and the lazy session login. */
module Backend {
  import opened Wrappers

  /** The backend credentials blob (`monetr_url`, `monetr_email`, `monetr_password`, `bank_account_id`). */
  datatype MonetrConfig = MonetrConfig(url: string, email: string, password: string, bankAccountId: string)

  /** A `datetime` as `strptime` leaves it. */
  datatype DateTime = DateTime(year: int, month: int, day: int, hour: int, minute: int, second: int, microsecond: int)

  predicate ValidDateTime(d: DateTime)
  {
    1 <= d.year <= 9999 && 1 <= d.month <= 12 && 1 <= d.day <= 31
    && 0 <= d.hour < 24 && 0 <= d.minute < 60 && 0 <= d.second < 60 && 0 <= d.microsecond < 1000000
  }

  /** A `datetime` value: one whose fields are in range. */
  type Instant = d: DateTime | ValidDateTime(d) witness DateTime(1970, 1, 1, 0, 0, 0, 0)

  function Pow10(w: nat): nat
  {
    if w == 0 then 1 else 10 * Pow10(w - 1)
  }

  function DigitChar(d: int): char
    requires 0 <= d < 10
  {
    ('0' as int + d) as char
  }

  /** `n` in decimal, zero-padded to `w` digits. */
  function Digits(n: nat, w: nat): (s: string)
    ensures |s| == w
    ensures forall i :: 0 <= i < |s| ==> '0' <= s[i] <= '9'
  {
    if w == 0 then "" else Digits(n / 10, w - 1) + [DigitChar(n % 10)]
  }

  /** The number a string of decimal digits denotes. */
  function DecimalValue(s: string): int
  {
    if s == [] then 0 else DecimalValue(s[..|s| - 1]) * 10 + (s[|s| - 1] as int - '0' as int)
  }

  lemma {:induction false} DigitsValue(n: nat, w: nat)
    requires n < Pow10(w)
    ensures DecimalValue(Digits(n, w)) == n
  {
    if w > 0 {
      DigitsValue(n / 10, w - 1);
      var s := Digits(n, w);
      assert s[..|s| - 1] == Digits(n / 10, w - 1);
    }
  }

  /** `date.strftime("%Y-%m-%dT%H:%M:%S.000Z")`: the microseconds are dropped and the milliseconds
      written as 000. */
  function FormatDate(d: Instant): string
  {
    CalendarPart(d) + "T" + ClockPart(d) + ".000Z"
  }

  /** `%Y-%m-%d`. */
  function CalendarPart(d: Instant): string
  {
    Digits(d.year, 4) + "-" + Digits(d.month, 2) + "-" + Digits(d.day, 2)
  }

  /** `%H:%M:%S`. */
  function ClockPart(d: Instant): string
  {
    Digits(d.hour, 2) + ":" + Digits(d.minute, 2) + ":" + Digits(d.second, 2)
  }

  /** Three fields joined by a one-character separator sit at fixed offsets. */
  lemma ThreeFields(x: string, y: string, z: string, sep: string)
    requires |sep| == 1
    ensures var s := x + sep + y + sep + z;
      |s| == |x| + |y| + |z| + 2 && s[0..|x|] == x && s[|x| + 1..|x| + 1 + |y|] == y
      && s[|x| + |y| + 2..] == z
  {
  }

  lemma CalendarPartFields(d: Instant)
    ensures |CalendarPart(d)| == 10
    ensures DecimalValue(CalendarPart(d)[0..4]) == d.year
    ensures DecimalValue(CalendarPart(d)[5..7]) == d.month
    ensures DecimalValue(CalendarPart(d)[8..10]) == d.day
  {
    assert Pow10(2) == 100 && Pow10(4) == 10000;
    DigitsValue(d.year, 4); DigitsValue(d.month, 2); DigitsValue(d.day, 2);
    ThreeFields(Digits(d.year, 4), Digits(d.month, 2), Digits(d.day, 2), "-");
  }

  lemma ClockPartFields(d: Instant)
    ensures |ClockPart(d)| == 8
    ensures DecimalValue(ClockPart(d)[0..2]) == d.hour
    ensures DecimalValue(ClockPart(d)[3..5]) == d.minute
    ensures DecimalValue(ClockPart(d)[6..8]) == d.second
  {
    assert Pow10(2) == 100;
    DigitsValue(d.hour, 2); DigitsValue(d.minute, 2); DigitsValue(d.second, 2);
    ThreeFields(Digits(d.hour, 2), Digits(d.minute, 2), Digits(d.second, 2), ":");
  }

  /** The formatted date is 24 characters with a fixed `.000Z` suffix, and every field up to the
      second can be read back from its position. */
  lemma FormatDateFields(d: Instant)
    ensures |FormatDate(d)| == 24 && FormatDate(d)[19..] == ".000Z"
    ensures DecimalValue(FormatDate(d)[0..4]) == d.year
    ensures DecimalValue(FormatDate(d)[5..7]) == d.month
    ensures DecimalValue(FormatDate(d)[8..10]) == d.day
    ensures DecimalValue(FormatDate(d)[11..13]) == d.hour
    ensures DecimalValue(FormatDate(d)[14..16]) == d.minute
    ensures DecimalValue(FormatDate(d)[17..19]) == d.second
  {
    var s := FormatDate(d);
    var c, k := CalendarPart(d), ClockPart(d);
    CalendarPartFields(d);
    ClockPartFields(d);
    assert s[0..10] == c && s[11..19] == k && s[19..] == ".000Z";
    assert s[0..4] == c[0..4] && s[5..7] == c[5..7] && s[8..10] == c[8..10];
    assert s[11..13] == k[0..2] && s[14..16] == k[3..5] && s[17..19] == k[6..8];
  }

  /** The monitor's conversion: negative source amounts stay negative, others stay as they are
      (in minor units; the division by 100.0 is the change of unit). */
  function LoopAmount(minor: int): int
  {
    if minor < 0 then -Abs(minor) else Abs(minor)
  }

  function Abs(x: int): int
  {
    if x < 0 then -x else x
  }

  /** `post_transaction`'s sign flip: negatives become positive, positives negative, zero stays. */
  function FlipSign(amount: int): int
  {
    if amount < 0 then -amount else if amount > 0 then -amount else amount
  }

  /** The amount posted is the negation of the source amount; a zero amount stays zero, and a
      debit becomes a credit of the same size. */
  lemma PostedAmountNegates(minor: int)
    ensures FlipSign(LoopAmount(minor)) == -minor
    ensures minor == 0 ==> FlipSign(LoopAmount(minor)) == 0
    ensures minor < 0 ==> FlipSign(LoopAmount(minor)) > 0
    ensures minor > 0 ==> FlipSign(LoopAmount(minor)) < 0
  {
  }

  /** The JSON record posted to `/api/bank_accounts/{id}/transactions`. `bankAccountId` and
      `spendingId` are None where the JSON holds null. */
  datatype Payload = Payload(
    bankAccountId: Option<string>,
    amount: int,
    name: string,
    merchantName: string,
    date: string,
    isPending: bool,
    spendingId: Option<string>,
    adjustsBalance: bool)

  /** The record `post_transaction` builds for an amount in the monitor's convention. */
  function BuildPayload(bankAccountId: Option<string>, amount: int, name: string, date: Instant, isPending: bool): Payload
  {
    Payload(bankAccountId, FlipSign(amount), name, name, FormatDate(date), isPending, None, true)
  }

  /** The record has the fixed shape: the name twice, no spending, adjusting the balance, the date
      at whole seconds, and the amount with its sign flipped. */
  lemma BuildPayloadShape(bankAccountId: Option<string>, amount: int, name: string, date: Instant, isPending: bool)
    ensures var p := BuildPayload(bankAccountId, amount, name, date, isPending);
      p.name == name && p.merchantName == name && p.spendingId.None? && p.adjustsBalance
      && p.isPending == isPending && p.bankAccountId == bankAccountId
      && p.amount == -amount && |p.date| == 24 && p.date[19..] == ".000Z"
  {
    FormatDateFields(date);
  }

  /** What the `requests` call answered: an exception before any response, or a status (and
      whether the response set a session cookie). */
  datatype HttpReply = NetworkError | Response(status: int, setsCookie: bool)

  /** `response.raise_for_status()` raises for 4xx and 5xx statuses. */
  predicate RaisesForStatus(status: int)
  {
    400 <= status < 600
  }

  /** Whether the call ends in an exception: raised by the transport, or by the explicit check
      `if status != 200: raise_for_status()`. */
  predicate Fails(reply: HttpReply)
  {
    reply.NetworkError? || (reply.status != 200 && RaisesForStatus(reply.status))
  }

  /** The backend's answers to one `post_transaction` call: to the login, if one is made, and to the post. */
  datatype PostReply = PostReply(login: HttpReply, post: HttpReply)

  /** The effect of one `post_transaction` call: whether a session cookie is held afterwards, the
      record sent (None if the lazy login raised first), and whether the call returned normally. */
  datatype PostResult = PostResult(loggedIn: bool, sent: Option<Payload>, ok: bool)

  function PostOutcome(loggedIn: bool, payload: Payload, reply: PostReply): PostResult
  {
    if !loggedIn && Fails(reply.login) then PostResult(false, None, false)
    else
      var session := if loggedIn then true else reply.login.setsCookie;
      PostResult(session, Some(payload), !Fails(reply.post))
  }

  /** A call returns normally exactly when the login it needed (if any) and the post both succeed,
      and then the record was sent; a held session is never replaced. */
  lemma PostOutcomeCorrect(loggedIn: bool, payload: Payload, reply: PostReply)
    ensures var r := PostOutcome(loggedIn, payload, reply);
      (r.ok <==> (loggedIn || !Fails(reply.login)) && !Fails(reply.post))
      && (r.ok ==> r.sent == Some(payload))
      && (r.sent.Some? ==> r.sent == Some(payload))
      && (r.sent.None? <==> !loggedIn && Fails(reply.login))
      && (loggedIn ==> r.loggedIn)
  {
  }

  /** The backend client; `loggedIn` stands for `self.auth_cookie` being a non-empty cookie jar. */
  class LocalApiClient {
    const config: MonetrConfig
    var loggedIn: bool

    constructor (config: MonetrConfig)
      ensures this.config == config && !loggedIn
    {
      this.config := config;
      loggedIn := false;
    }

    /** The bank account the records are posted to: the configuration's. */
    function BankAccountId(): string
    {
      config.bankAccountId
    }

    /** The URL posted to. */
    function PostUrl(): string
    {
      config.url + "/api/bank_accounts/" + config.bankAccountId + "/transactions"
    }

    /** `login()`: on success the session cookie is whatever the response set. */
    method Login(reply: HttpReply) returns (ok: bool)
      modifies this
      ensures ok == !Fails(reply)
      ensures loggedIn == if ok then reply.setsCookie else old(loggedIn)
    {
      ok := !Fails(reply);
      if ok {
        loggedIn := reply.setsCookie;
      }
    }

    /** `post_transaction(amount, name, date, is_pending)` with the amount in minor units; `target`
        is the URL the record is posted to, None when the lazy login raised before any post. */
    method PostTransaction(amount: int, name: string, date: Instant, isPending: bool, reply: PostReply)
      returns (ok: bool, sent: Option<Payload>, target: Option<string>)
      modifies this
      ensures var r := PostOutcome(old(loggedIn), BuildPayload(Some(BankAccountId()), amount, name, date, isPending), reply);
        loggedIn == r.loggedIn && sent == r.sent && ok == r.ok
      ensures target.Some? <==> sent.Some?
      ensures target.Some? ==> target.value == PostUrl() && sent.value.bankAccountId == Some(config.bankAccountId)
    {
      if !loggedIn {
        var loginOk := Login(reply.login);
        if !loginOk {
          return false, None, None;
        }
      }
      var payload := BuildPayload(Some(BankAccountId()), amount, name, date, isPending);
      sent := Some(payload);
      target := Some(PostUrl());
      ok := !Fails(reply.post);
    }
  }

  /** What `LocalAPIClient(config)` ends with, as written: the configuration and the module-level
      LOCAL_BANK_ACCOUNT_ID. The global is assigned only on the interactive-setup path. */
  datatype InitState = InitState(config: MonetrConfig, globalBankAccountId: Option<string>)

  function ClientInitAsWritten(given: Option<MonetrConfig>, stored: Option<MonetrConfig>,
                               setup: Option<MonetrConfig>, global: Option<string>): Result<InitState>
  {
    if given.Some? then Ok(InitState(given.value, global))
    else if stored.Some? then Ok(InitState(stored.value, global))
    else if setup.Some? then Ok(InitState(setup.value, Some(setup.value.bankAccountId)))
    else Err("Monetr configuration is required")
  }

  /** The request `post_transaction` sends as written: the global stands in both the URL and the
      record, and a None global is formatted as "None" and serialised as null. */
  function PostUrlAsWritten(s: InitState): string
  {
    s.config.url + "/api/bank_accounts/"
    + (match s.globalBankAccountId case Some(id) => id case None => "None") + "/transactions"
  }

  /** On a run that finds its configuration in the keyring, the global is never assigned: records
      go to `/api/bank_accounts/None/transactions` with a null `bankAccountId`, whatever account
      the configuration names. */
  lemma StoredConfigLosesBankAccount(c: MonetrConfig, amount: int, name: string, date: Instant, isPending: bool)
    ensures ClientInitAsWritten(None, Some(c), None, None) == Ok(InitState(c, None))
    ensures PostUrlAsWritten(InitState(c, None)) == c.url + "/api/bank_accounts/None/transactions"
    ensures BuildPayload(InitState(c, None).globalBankAccountId, amount, name, date, isPending).bankAccountId.None?
  {
  }

  /** The corrected construction: the client keeps the configuration it was given, found, or set
      up, and posts to that configuration's account. */
  function ClientInit(given: Option<MonetrConfig>, stored: Option<MonetrConfig>, setup: Option<MonetrConfig>): (r: Result<MonetrConfig>)
    ensures given.Some? ==> r == Ok(given.value)
    ensures given.None? && stored.Some? ==> r == Ok(stored.value)
    ensures given.None? && stored.None? ==> (r.Ok? <==> setup.Some?) && (setup.Some? ==> r == Ok(setup.value))
  {
    if given.Some? then Ok(given.value)
    else if stored.Some? then Ok(stored.value)
    else if setup.Some? then Ok(setup.value)
    else Err("Monetr configuration is required")
  }

  lemma MiddleEqual(a: string, x: string, y: string, b: string)
    requires a + x + b == a + y + b
    ensures x == y
  {
    var s := a + x + b;
    assert |x| == |y|;
    assert s[|a|..|a| + |x|] == x;
    assert (a + y + b)[|a|..|a| + |y|] == y;
  }

  /** A client built by the corrected construction posts to its configuration's account, in the
      URL and in the record, on every path: where the as-written global would have sent it had
      it held that account, and, on a run that finds its configuration in the keyring, somewhere
      other than the as-written `/None/` URL whenever the account is not literally "None". */
  lemma CorrectedClientTargetsItsAccount(c: LocalApiClient, given: Option<MonetrConfig>, stored: Option<MonetrConfig>,
                                         setup: Option<MonetrConfig>, amount: int, name: string, date: Instant, isPending: bool)
    requires ClientInit(given, stored, setup) == Ok(c.config)
    ensures c.BankAccountId() == ClientInit(given, stored, setup).value.bankAccountId
    ensures c.PostUrl() == c.config.url + "/api/bank_accounts/" + ClientInit(given, stored, setup).value.bankAccountId + "/transactions"
    ensures BuildPayload(Some(c.BankAccountId()), amount, name, date, isPending).bankAccountId
            == Some(ClientInit(given, stored, setup).value.bankAccountId)
    ensures c.PostUrl() == PostUrlAsWritten(InitState(c.config, Some(c.config.bankAccountId)))
    ensures given.None? && stored.Some? && c.config.bankAccountId != "None" ==>
      c.PostUrl() != PostUrlAsWritten(ClientInitAsWritten(given, stored, setup, None).value)
  {
    if given.None? && stored.Some? && c.config.bankAccountId != "None" {
      assert ClientInitAsWritten(given, stored, setup, None).value == InitState(c.config, None);
      if c.PostUrl() == PostUrlAsWritten(InitState(c.config, None)) {
        MiddleEqual(c.config.url + "/api/bank_accounts/", c.config.bankAccountId, "None", "/transactions");
      }
    }
  }

  /** With the corrected construction, the account posted to is the configuration's on every path,
      where as written it is the configuration's only when the setup path ran. */
  lemma ClientInitAgrees(given: Option<MonetrConfig>, stored: Option<MonetrConfig>, setup: Option<MonetrConfig>, global: Option<string>)
    ensures ClientInit(given, stored, setup).Ok? <==> ClientInitAsWritten(given, stored, setup, global).Ok?
    ensures ClientInit(given, stored, setup).Ok? ==>
      ClientInitAsWritten(given, stored, setup, global).value.config == ClientInit(given, stored, setup).value
    ensures given.None? && stored.None? && setup.Some? ==>
      ClientInitAsWritten(given, stored, setup, global).value.globalBankAccountId == Some(ClientInit(given, stored, setup).value.bankAccountId)
  {
  }
}
