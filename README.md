# Monzo–Monetr bridge, modelled in Dafny

The bridge is a single Python script. It watches a Monzo bank account and forwards every new
transaction to a self-hosted Monetr budgeting backend. The project models its core:

- the transaction monitor: a set of transaction ids already seen, seeded from the `us_partner`
  accounts, and the forwarding step that posts each unseen transaction and marks it seen only
  once the post has returned normally;
- the record posted to the backend: the sign flip, the name resolution, the pending flag and
  the date format;
- the backend client's lazy session login;
- the OAuth callback handler's query parsing;
- the keyring store of the two configuration blobs and the OAuth code, and the
  "encryption" that stores them (base64, section 4 of RFC 4648, of the UTF-8 octets of the JSON
  text);
- `get_transactions`, `wait_for_app_approval`, the interactive setup forms, and the choice of
  access token at start-up.

Every network call is an oracle: a parameter that says what the server answered. The keyring is
a map from (service, name) to text. JSON is abstract: `json.dumps` and `json.loads` are a pair
of functions handed in by the caller (`ConfigCodec.JsonCodec`). `datetime.strptime` is a
function handed in as well, returning None where it raises. Console input is a sequence of
lines. Amounts are integers in minor units (pennies).

The modules follow the script's parts:

- `Strings`: the Python `str` operations the script uses.
- `Base64`, `Utf8` and `ConfigCodec`: `encrypt_config` and `decrypt_config`.
- `Credentials`: the keyring and the token and code operations.
- `Callback`: `AuthHandler.do_GET`.
- `Transactions`: the data model and `get_transactions`.
- `Backend`: `LocalAPIClient`.
- `Monitor`: the monitoring loop in `main`.
- `Approval`: `wait_for_app_approval`.
- `Setup`: `setup_monetr_config` and `setup_monzo_config`.
- `Bridge`: `main`'s choice of token at start-up.

Where the script's state changes in place, the model is imperative:

- `Monitor.TransactionMonitor` holds the seen-set.
- `Backend.LocalApiClient` holds the session.
- `Credentials.CredentialStore` holds the keyring map.

Each of their methods is proved equal to a function of the old state. The properties are proved
about those functions.

## Model

| member | source | states |
|---|---|---|
| Base64.DecodeEncode | Monzo_Bridge.py:56-65 | decoding the base64 text of any octets gives back those octets |
| Base64.EncodeIsAscii | Monzo_Bridge.py:58 | `b64encode` writes only ASCII characters |
| Base64.Encode | Monzo_Bridge.py:58 | the encoded text is 4 characters for every started group of 3 octets |
| Base64.DecodeRejects | Monzo_Bridge.py:63 | for all inputs: text with a non-ASCII character fails; a run of alphabet characters decodes exactly when its length is a multiple of 4; a group with one data character fails whatever pads follow; a two-character group with a single '=' fails |
| Base64.DecodeLenient | Monzo_Bridge.py:63 | for all inputs: inserting any ASCII character outside the alphabet other than '=' anywhere leaves the result unchanged; after a group completed by its padding, any ASCII text is ignored |
| Base64.A2bAfterData | Monzo_Bridge.py:63 | a run of alphabet characters only advances the decoder's state; what follows decodes from that state |
| Base64.A2bSkips | Monzo_Bridge.py:63 | a skipped character can be removed from any position without changing the decoder's result |
| Base64.DecodeExamples | Monzo_Bridge.py:63 | `Q`, `QQ=` and a non-ASCII text fail; `QQ==`, `Q Q==` and `QQ==QUJD` all decode to the single octet 65 |
| Utf8.DecodeEncode | Monzo_Bridge.py:58-63 | `.encode()` followed by `.decode()` gives back the text |
| Utf8.DecodeRejects | Monzo_Bridge.py:63 | for all following octets: a sequence starting with a continuation octet, with C0 or C1 (overlong) or with F5 and above fails; ED followed by A0 or more (a surrogate) fails; a lead cut short by the end of input fails; a two-octet lead not followed by a continuation octet fails |
| Utf8.DecodeExamples | Monzo_Bridge.py:63 | `80`, `C0 80` and `ED A0 80` are refused |
| ConfigCodec.DecryptEncrypt | Monzo_Bridge.py:56-65 | `decrypt_config(encrypt_config(c)) == c` for every configuration that survives JSON |
| ConfigCodec.EncryptConfigIsAscii | Monzo_Bridge.py:56-58 | the stored text is ASCII |
| ConfigCodec.EncryptConfigNonEmpty | Monzo_Bridge.py:56-58 | non-empty JSON is stored as non-empty text, which the loaders treat as present |
| ConfigCodec.DecryptMalformed | Monzo_Bridge.py:60-65 | for every text: when `b64decode` fails, or its octets are not UTF-8, the result is None instead of an exception; in particular for any non-ASCII text and any run of alphabet characters whose length is not a multiple of 4 |
| ConfigCodec.DecryptExamples | Monzo_Bridge.py:60-65 | `Q` and `gA==` (base64 of the lone octet 80) decrypt to None |
| Strings.Split | Monzo_Bridge.py:305 | `str.split` on one character: one more part than separators, no part holds the separator, joining gives back the text |
| Strings.StripSpec | Monzo_Bridge.py:107 | `strip()` leaves the middle of the text, having dropped only whitespace before and after it, with no whitespace at either end; stripping twice is stripping once |
| Strings.RStripCharSpec | Monzo_Bridge.py:111 | `rstrip('/')` leaves a prefix that does not end with '/', having dropped only '/' |
| Strings.LexLessTransitive | Monzo_Bridge.py:444 | the string order the sort uses is transitive |
| Strings.LexLessTotal | Monzo_Bridge.py:444 | the string order is total on distinct strings |
| Strings.LexLessIrreflexive | Monzo_Bridge.py:444 | no string is smaller than itself |
| Callback.HandleCallback | Monzo_Bridge.py:301-341 | the reply is 200 or 400, and a code is kept exactly on 200 |
| Callback.CallbackAccepts | Monzo_Bridge.py:305-306 | 200 exactly when the path has a '?', every '&'-component of the query has exactly one '=', and one of them is `code=`; otherwise 400 |
| Callback.CallbackStoresLastCode | Monzo_Bridge.py:305-306 | the code kept is the value of the last `code=` component |
| Callback.DictOfLastWins | Monzo_Bridge.py:305 | `dict(pairs)` holds exactly the keys of the pairs, with the value of the last pair for each |
| Callback.TypicalCallback | Monzo_Bridge.py:301-309 | a redirect `<path>?code=<code>&state=<state>` gives 200 and stores `<code>`, for any path without '?' and any values free of `?`, `&` and `=` |
| Callback.BridgeCallback | Monzo_Bridge.py:301-309 | the redirect to the `/callback` path registered as the redirect URI (line 47), `/callback?code=<code>&state=<state>`, gives 200 and stores `<code>` |
| Credentials.LoadSaved | Monzo_Bridge.py:67-95 | a saved configuration loads back, and no other keyring entry changes |
| Credentials.TokensSavedEffect | Monzo_Bridge.py:196-202 | `save_tokens` replaces only the two token fields, and only when a non-empty configuration is stored; otherwise the keyring is unchanged |
| Credentials.AuthCodeClearedEffect | Monzo_Bridge.py:347-352 | `clear_auth_code` removes the code, touches nothing else, and clearing twice is clearing once |
| Credentials.ExchangeEffect | Monzo_Bridge.py:354-380 | after a granted exchange the code is gone, the saved access token is the new one, and the backend's entry is untouched |
| Credentials.CredentialStore.SaveTokens | Monzo_Bridge.py:196-202 | the method leaves the keyring as the `save_tokens` function of the old keyring |
| Credentials.CredentialStore.ClearAuthCode | Monzo_Bridge.py:347-352 | the method removes exactly the code entry |
| Credentials.CredentialStore.HandleCallback | Monzo_Bridge.py:301-309 | the code is stored only when the reply is 200 |
| Credentials.CredentialStore.ExchangeAuthCode | Monzo_Bridge.py:354-380 | without a stored configuration: an error and no change; a failed request: an error and no change; a grant: tokens saved, code cleared, access token returned |
| Transactions.SortNewestFirstCorrect | Monzo_Bridge.py:444 | the sort is a permutation ordered by `created`, newest first |
| Transactions.SortNewestFirstStable | Monzo_Bridge.py:444 | transactions with equal `created` keep their order, as Python's stable sort does with `reverse=True` |
| Transactions.GetTransactionsCorrect | Monzo_Bridge.py:423-450 | a failed fetch gives `[]`; a page gives a newest-first permutation of itself |
| Transactions.Insert | Monzo_Bridge.py:444 | one insertion step adds exactly the new element |
| Backend.PostedAmountNegates | Monzo_Bridge.py:260-264 | the amount posted is minus the source minor-unit amount: a zero amount stays zero and the sign flips |
| Backend.FormatDateFields | Monzo_Bridge.py:272 | the date text is 24 characters ending in `.000Z`, and every field reads back from its place |
| Backend.DigitsValue | Monzo_Bridge.py:272 | a zero-padded field reads back as its number |
| Backend.BuildPayloadShape | Monzo_Bridge.py:268-277 | the record carries the name twice, no spending, adjusts the balance, the negated amount and the formatted date |
| Backend.PostOutcomeCorrect | Monzo_Bridge.py:228-298 | a post returns normally exactly when the login it needed (if any) and the post both succeed; a held session is kept |
| Backend.LocalApiClient.Login | Monzo_Bridge.py:228-255 | login fails exactly on a transport error or a 4xx/5xx status, and keeps the cookie the response set |
| Backend.LocalApiClient.PostTransaction | Monzo_Bridge.py:257-298 | the new session and the result are those of the post outcome for the client's own record; a post is sent exactly when the login it needed succeeded, to the client's account URL, carrying the client's account id |
| Backend.StoredConfigLosesBankAccount | Monzo_Bridge.py:211-226 | as written, a client built from the stored configuration posts to `/api/bank_accounts/None/transactions` with a null `bankAccountId` |
| Backend.CorrectedClientTargetsItsAccount | Monzo_Bridge.py:211-283 | a corrected client, however its configuration was obtained, posts records carrying that configuration's `bank_account_id` to `<url>/api/bank_accounts/<id>/transactions`; with a stored configuration, this differs from the as-written target |
| Backend.ClientInitAgrees | Monzo_Bridge.py:211-226 | the corrected and the as-written construction pick the same configuration; they also agree on the account whenever the setup path ran |
| Monitor.DisplayNamePrecedence | Monzo_Bridge.py:594-598 | the name is the merchant's non-empty name, else the description, else "Unknown" |
| Monitor.IsPendingCases | Monzo_Bridge.py:618 | a transaction is pending unless `settled` is present and truthy; a missing `settled` is pending |
| Monitor.StepSeenSet | Monzo_Bridge.py:584-623 | the seen-set only grows, and ends as the old set plus exactly the ids whose post returned normally |
| Monitor.StepNeverReposts | Monzo_Bridge.py:584 | no already-seen id is posted, and no id is posted again after a successful post |
| Monitor.StepPostsNormalisedRecords | Monzo_Bridge.py:587-618 | every record posted carries minus the source amount, the resolved name twice, the pending flag, no spending, the configured account and the formatted date |
| Monitor.RunAbortedPrefix | Monzo_Bridge.py:601-604 | once an unparsable timestamp raises, the rest of the batch is not looked at |
| Monitor.StepPostsEachUnseenOnce | Monzo_Bridge.py:582-623 | when every timestamp parses and the ids are distinct, exactly one post is made per unseen transaction, in batch order |
| Monitor.CycleSeenSet | Monzo_Bridge.py:571-627 | across all accounts of one pass, the seen-set is the seed plus the successfully posted ids, and nothing seen is posted again |
| Monitor.CycleAbortedPrefix | Monzo_Bridge.py:624-627 | an exception ends the pass; later accounts wait for the next pass |
| Monitor.PageIdsMembers | Monzo_Bridge.py:567-569 | the ids returned by `get_transactions` are exactly those of a fetch that succeeded |
| Monitor.SeedIds | Monzo_Bridge.py:565-569 | the seed holds exactly the ids of the watched accounts' pages that were fetched |
| Monitor.TransactionMonitor.ProcessBatch | Monzo_Bridge.py:582-623 | the new seen-set, session, posts made and whether the batch stopped early follow the batch step over the old state |
| Monitor.TransactionMonitor.PollCycle | Monzo_Bridge.py:575-627 | the same over every watched account of one pass |
| Approval.ApprovedIff | Monzo_Bridge.py:461-473 | approval exactly when a `yes` confirmed by the listing comes before any `exit` |
| Approval.ExitedIff | Monzo_Bridge.py:474-481 | `False` exactly when an `exit` comes before any confirmed `yes` |
| Approval.ExhaustedIff | Monzo_Bridge.py:461-481 | the prompt keeps asking while no answer is decisive (`no`, anything else, and an unconfirmed `yes`) |
| Approval.ApprovalFirstDecisive | Monzo_Bridge.py:461-481 | the outcome is decided by the first decisive answer |
| Approval.ClassifyAnyPadding | Monzo_Bridge.py:462 | any capitalisation of `yes` or `exit`, with any whitespace before and after, is that answer |
| Approval.ClassifyPadded | Monzo_Bridge.py:462 | `" YES\t"` counts as `yes` |
| Approval.ClassifyWords | Monzo_Bridge.py:462 | `Exit` counts as `exit`; `y` is neither word |
| Approval.WaitForAppApproval | Monzo_Bridge.py:461-481 | the loop returns the outcome of the prompt's specification |
| Setup.Defaulted | Monzo_Bridge.py:107-108 | an answer of whitespace only takes the default; a value other than the default is the typed line with only its leading and trailing whitespace dropped, and has no whitespace at either end |
| Setup.ReadFormDefaults | Monzo_Bridge.py:104-131 | blank answers keep the stored URL (without trailing '/'), email and bank id; on a first run they give `http://localhost:4000` and empty values |
| Setup.ReadFormShape | Monzo_Bridge.py:107-118 | the form's URL never ends with '/' and its password is stripped |
| Setup.SetupRound | Monzo_Bridge.py:97-166 | a round either restarts at least five lines further on in the input, or ends; it ends configured only with its own form, after its login succeeded |
| Setup.SetupConfiguredShape | Monzo_Bridge.py:97-166 | a configured result has a clean URL, a stripped password and a login that succeeded |
| Setup.SetupConfiguredFrom | Monzo_Bridge.py:97-166 | a configured result is the form of some later round, saved after its login succeeded |
| Setup.BankIdWarned | Monzo_Bridge.py:133-166 | a bank id not starting with `bac_` is warned about: unless confirmed with `yes` the form restarts on the next lines with the same login number; once confirmed, or with no warning, a successful login saves the form; a failed login with no warning and a `yes` retries with the next login |
| Setup.BlankBankIdWarned | Monzo_Bridge.py:129-137 | on a first run a blank bank id is warned about, and the form restarts unless the warning is confirmed |
| Setup.SetupMonetrConfig | Monzo_Bridge.py:97-166 | the configuration is saved exactly on success; otherwise the keyring is untouched |
| Setup.SetupMonzoSaved | Monzo_Bridge.py:168-194 | the bank-side configuration has its four keys, no tokens, and loads back after saving |
| Setup.SetupMonzoConfig | Monzo_Bridge.py:168-194 | the form built from the stored defaults is saved |
| Bridge.StartupChoice | Monzo_Bridge.py:511-547 | with a usable saved token, start-up does not depend on the authorisation flow's result and monitors with a non-empty token; monitoring starts exactly when a usable token is saved or the flow produced one; without a saved token it monitors with the flow's token |
| Bridge.SecondRunResumes | Monzo_Bridge.py:354-512 | the run after a granted exchange monitors with the token it saved, without authorising again |

## Left out

- HTTP, the browser, the callback server, the console and `time.sleep`: each is an oracle
  parameter or is not modelled.
- The keyring's own failures (for example `PasswordDeleteError`, or a missing Secret Service).
  The keyring is a total map. `check_keyring_requirements` and the platform check are not part of
  this model.
- Floating point: the script divides by 100.0 and the backend client multiplies back with
  `int(amount * 100)`. The model posts integer minor units. For some amounts IEEE-754 doubles
  truncate one penny low (0.29 * 100 is 28.999999999999996). The `:.2f` messages are not
  modelled.
- Backend.PostedAmountNegates: states the exact negation in minor units. It does not model the
  float round trip just described.
- Backend.FormatDate: zero-pads the year to four digits. glibc's `%Y` does not pad years below
  1000.
- The parse of `created` and the clock: `strptime` is a parameter, `datetime.now()` is not
  modelled, and the `since` window of `get_transactions` is not modelled.
- JSON shapes the model does not express:
  - a transaction without `created`: the sort raises and `get_transactions` returns `[]`;
  - a `description` that is JSON null: `transaction.get('description', 'Unknown')` gives `None`,
    so the record is posted with a null `name` and `merchantName`, and nothing fails in the
    script. The model's description is text or missing, and a missing one gives "Unknown";
  - keyring JSON that is not an object. A falsy value (`[]`, `0`, `""`, `false`, `null`) fails
    every `if config` test, so it is treated like a missing entry without raising; a truthy one
    raises at the first `.get` or subscript. The model's configurations are objects only;
  - a missing key in the backend configuration, which raises at its subscript.
- Strings.Lower: lower-cases ASCII letters only. This is exact for the comparisons with `yes`,
  `no` and `exit`: no other character lower-cases to one of their letters on its own.
- `refresh_access_token`: it is never called. `get_accounts` is an oracle, as the
  `listed` answers of the approval prompt: `listed[i]` is whether `get_accounts` returns without
  raising. It checks no HTTP status, so any reply whose body is a JSON object confirms approval,
  an error body such as a 401 included.
- The `get_access_token` wrapper: `Credentials.CredentialStore.ExchangeAuthCode` takes its place.
- `main`:
  - Its sequencing is not modelled as one function: the backend client, the bank-side setup and
    the authorisation flow are modelled by their own members.
  - Its endless `while True` loop is one call of `Monitor.TransactionMonitor.PollCycle` per pass.
  - Ctrl+C is not modelled.
- Credentials.CredentialStore.ExchangeAuthCode: a failed request is reported as an error without
  its message text.

## Findings

| source | as written | input that shows it | evidently intended | confidence | as-written member | corrected member |
|---|---|---|---|---|---|---|
| Monzo_Bridge.py:211-226 | `LOCAL_BANK_ACCOUNT_ID` is assigned only inside `if not self.config`, so a client whose configuration was given or loaded from the keyring leaves it `None`; records then go to `/api/bank_accounts/None/transactions` with a null `bankAccountId` | any run after the first, when the backend configuration is already stored | the client posts to the configuration's `bank_account_id` however the configuration was obtained | high, not executed | Backend.StoredConfigLosesBankAccount | Backend.CorrectedClientTargetsItsAccount |

The rest of the model uses the corrected client: `Backend.ClientInit` picks the configuration
as the script does, and `Backend.LocalApiClient` posts to that configuration's own account
(`BankAccountId`). `Backend.ClientInitAgrees` relates the two constructions.
