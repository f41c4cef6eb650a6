/** The transaction monitor of `main`: a seen-set seeded from the watched accounts' current
    transactions, and the forwarding step that posts every transaction not yet seen and marks it
    seen only once the post has returned normally. */
module Monitor {
  import opened Wrappers
  import opened Transactions
  import opened Backend

  /** The name posted: the merchant's name when the merchant is present with a non-empty name,
      else the description, else "Unknown". */
  function DisplayName(t: Transaction): string
  {
    if t.merchant.Some? && t.merchant.value.name.Some? && t.merchant.value.name.value != "" then
      t.merchant.value.name.value
    else if t.description.Some? then t.description.value
    else "Unknown"
  }

  /** The three tiers of the name, each on records lacking the tiers above it. */
  lemma DisplayNamePrecedence(t: Transaction)
    ensures (t.merchant.Some? && t.merchant.value.name.Some? && t.merchant.value.name.value != "")
            ==> DisplayName(t) == t.merchant.value.name.value
    ensures (!(t.merchant.Some? && t.merchant.value.name.Some? && t.merchant.value.name.value != "")
             && t.description.Some?) ==> DisplayName(t) == t.description.value
    ensures DisplayName(t) == "Unknown" <==>
      (t.merchant.Some? && t.merchant.value.name == Some("Unknown"))
      || (!(t.merchant.Some? && t.merchant.value.name.Some? && t.merchant.value.name.value != "")
          && (t.description.None? || t.description == Some("Unknown")))
  {
  }

  /** `not transaction.get('settled', False)`: pending unless `settled` is present and true. */
  function IsPending(t: Transaction): bool
  {
    !(t.settled.Some? && Truthy(t.settled.value))
  }

  lemma IsPendingCases(t: Transaction)
    ensures t.settled.None? ==> IsPending(t)
    ensures t.settled == Some(Text("")) ==> IsPending(t)
    ensures t.settled == Some(Bool(true)) ==> !IsPending(t)
    ensures forall s :: t.settled == Some(Text(s)) ==> (IsPending(t) <==> s == "")
  {
  }

  /** One `post_transaction` call made by the step: for which transaction, the record sent (None if
      the lazy login raised first), and whether the call returned normally. */
  datatype Attempt = Attempt(tx: Transaction, sent: Option<Payload>, ok: bool)

  /** The record the step posts for `t` when its timestamp parses to `when`. */
  function PayloadFor(bankAccountId: string, t: Transaction, when: Instant): Payload
  {
    BuildPayload(Some(bankAccountId), LoopAmount(t.amount), DisplayName(t), when, IsPending(t))
  }

  /** Where the step has got to: the seen-set, whether a session is held, the calls made, and
      whether an exception (an unparsable timestamp) has ended the cycle. */
  datatype Progress = Progress(seen: set<string>, loggedIn: bool, attempts: seq<Attempt>, aborted: bool)

  /** The loop body for one transaction. */
  function Visit(p: Progress, t: Transaction, reply: PostReply, bank: string, parse: string -> Option<Instant>): Progress
  {
    if t.id in p.seen then p
    else match parse(t.created)
      case None => p.(aborted := true)
      case Some(when) =>
        var r := PostOutcome(p.loggedIn, PayloadFor(bank, t, when), reply);
        Progress(if r.ok then p.seen + {t.id} else p.seen, r.loggedIn,
                 p.attempts + [Attempt(t, r.sent, r.ok)], false)
  }

  /** The step over a whole batch, transaction by transaction; `replies[i]` is the backend's answer
      if transaction `i` is posted. */
  function Run(seen: set<string>, loggedIn: bool, txs: seq<Transaction>, replies: seq<PostReply>,
               bank: string, parse: string -> Option<Instant>): Progress
    requires |replies| == |txs|
    decreases |txs|
  {
    if txs == [] then Progress(seen, loggedIn, [], false)
    else
      var n := |txs| - 1;
      var prev := Run(seen, loggedIn, txs[..n], replies[..n], bank, parse);
      if prev.aborted then prev else Visit(prev, txs[n], replies[n], bank, parse)
  }

  /** The ids of the calls that returned normally. */
  function OkIds(attempts: seq<Attempt>): set<string>
  {
    if attempts == [] then {}
    else OkIds(attempts[..|attempts| - 1])
         + (if attempts[|attempts| - 1].ok then {attempts[|attempts| - 1].tx.id} else {})
  }

  lemma {:induction false} OkIdsMembers(attempts: seq<Attempt>, x: string)
    ensures x in OkIds(attempts) <==> exists i :: 0 <= i < |attempts| && attempts[i].ok && attempts[i].tx.id == x
    decreases |attempts|
  {
    if attempts != [] {
      var init := attempts[..|attempts| - 1];
      OkIdsMembers(init, x);
      if exists i :: 0 <= i < |attempts| && attempts[i].ok && attempts[i].tx.id == x {
        var i :| 0 <= i < |attempts| && attempts[i].ok && attempts[i].tx.id == x;
        if i < |init| { assert init[i] == attempts[i]; }
      }
      if exists i :: 0 <= i < |init| && init[i].ok && init[i].tx.id == x {
        var i :| 0 <= i < |init| && init[i].ok && init[i].tx.id == x;
        assert attempts[i] == init[i];
      }
    }
  }

  /** After a call for an id returned normally, no later call is made for that id. */
  predicate NoRetryAfterSuccess(attempts: seq<Attempt>)
  {
    forall i, j :: 0 <= i < j < |attempts| && attempts[i].ok ==> attempts[j].tx.id != attempts[i].tx.id
  }

  /** What every call of a batch satisfies: it is for a transaction of the batch whose timestamp
      parsed, it sends that transaction's record, and it returns normally only if it sent one. */
  predicate CallsFit(txs: seq<Transaction>, bank: string, parse: string -> Option<Instant>, attempts: seq<Attempt>)
  {
    && (forall i :: 0 <= i < |attempts| ==> attempts[i].tx in txs)
    && (forall i :: 0 <= i < |attempts| ==> parse(attempts[i].tx.created).Some?)
    && (forall i :: 0 <= i < |attempts| && attempts[i].sent.Some? ==>
          attempts[i].sent.value == PayloadFor(bank, attempts[i].tx, parse(attempts[i].tx.created).value))
    && (forall i :: 0 <= i < |attempts| && attempts[i].ok ==> attempts[i].sent.Some?)
  }

  /** The facts the step keeps: the seen-set is the seed plus the ids whose post returned normally;
      no call is made for a seeded id; no id is posted again once posted; every call fits the batch. */
  predicate Consistent(seen: set<string>, txs: seq<Transaction>, bank: string, parse: string -> Option<Instant>, p: Progress)
  {
    SeenSound(seen, p) && CallsFit(txs, bank, parse, p.attempts)
  }

  lemma CallsFitGrow(txs: seq<Transaction>, t: Transaction, bank: string, parse: string -> Option<Instant>, attempts: seq<Attempt>)
    requires CallsFit(txs, bank, parse, attempts)
    ensures CallsFit(txs + [t], bank, parse, attempts)
  {
    forall i | 0 <= i < |attempts| ensures attempts[i].tx in txs + [t] {
      assert attempts[i].tx in txs;
    }
  }

  lemma VisitSeenSound(seen: set<string>, p: Progress, t: Transaction, reply: PostReply,
                       bank: string, parse: string -> Option<Instant>)
    requires SeenSound(seen, p) && !p.aborted
    ensures SeenSound(seen, Visit(p, t, reply, bank, parse))
  {
    var q := Visit(p, t, reply, bank, parse);
    if t.id !in p.seen && parse(t.created).Some? {
      var a := q.attempts[|q.attempts| - 1];
      assert q.attempts == p.attempts + [a];
      assert OkIds([a]) == if a.ok then {t.id} else {} by {
        assert [a][..0] == [];
      }
      SoundAppend(seen, p.seen, p.attempts, [a]);
    }
  }

  lemma VisitCallsFit(txs: seq<Transaction>, p: Progress, t: Transaction, reply: PostReply,
                      bank: string, parse: string -> Option<Instant>)
    requires CallsFit(txs, bank, parse, p.attempts)
    ensures CallsFit(txs + [t], bank, parse, Visit(p, t, reply, bank, parse).attempts)
  {
    CallsFitGrow(txs, t, bank, parse, p.attempts);
    if t.id !in p.seen && parse(t.created).Some? {
      PostOutcomeCorrect(p.loggedIn, PayloadFor(bank, t, parse(t.created).value), reply);
    }
  }

  lemma VisitConsistent(seen: set<string>, txs: seq<Transaction>, t: Transaction, reply: PostReply,
                        bank: string, parse: string -> Option<Instant>, p: Progress)
    requires Consistent(seen, txs, bank, parse, p) && !p.aborted
    ensures Consistent(seen, txs + [t], bank, parse, Visit(p, t, reply, bank, parse))
  {
    VisitSeenSound(seen, p, t, reply, bank, parse);
    VisitCallsFit(txs, p, t, reply, bank, parse);
  }

  lemma {:induction false} RunConsistent(seen: set<string>, loggedIn: bool, txs: seq<Transaction>, replies: seq<PostReply>,
                                         bank: string, parse: string -> Option<Instant>)
    requires |replies| == |txs|
    ensures Consistent(seen, txs, bank, parse, Run(seen, loggedIn, txs, replies, bank, parse))
    decreases |txs|
  {
    if txs != [] {
      var n := |txs| - 1;
      RunConsistent(seen, loggedIn, txs[..n], replies[..n], bank, parse);
      var prev := Run(seen, loggedIn, txs[..n], replies[..n], bank, parse);
      assert txs[..n] + [txs[n]] == txs;
      if prev.aborted {
        CallsFitGrow(txs[..n], txs[n], bank, parse, prev.attempts);
      } else {
        VisitConsistent(seen, txs[..n], txs[n], replies[n], bank, parse, prev);
      }
    }
  }

  /** The seen-set only grows, by exactly the ids whose post returned normally: a failed post
      leaves its id out, so the transaction is tried again on the next cycle. */
  lemma StepSeenSet(seen: set<string>, loggedIn: bool, txs: seq<Transaction>, replies: seq<PostReply>,
                    bank: string, parse: string -> Option<Instant>, x: string)
    requires |replies| == |txs|
    ensures var r := Run(seen, loggedIn, txs, replies, bank, parse);
      seen <= r.seen
      && (x in r.seen <==> x in seen || exists i :: 0 <= i < |r.attempts| && r.attempts[i].ok && r.attempts[i].tx.id == x)
  {
    RunConsistent(seen, loggedIn, txs, replies, bank, parse);
    OkIdsMembers(Run(seen, loggedIn, txs, replies, bank, parse).attempts, x);
  }

  /** No transaction whose id is already seen is posted, and an id is posted at most once
      successfully. */
  lemma StepNeverReposts(seen: set<string>, loggedIn: bool, txs: seq<Transaction>, replies: seq<PostReply>,
                         bank: string, parse: string -> Option<Instant>)
    requires |replies| == |txs|
    ensures var r := Run(seen, loggedIn, txs, replies, bank, parse);
      (forall i :: 0 <= i < |r.attempts| ==> r.attempts[i].tx.id !in seen)
      && NoRetryAfterSuccess(r.attempts)
  {
    RunConsistent(seen, loggedIn, txs, replies, bank, parse);
  }

  /** Every record posted carries the negated source amount, the resolved name twice, the pending
      flag from `settled`, no spending, and adjusts the balance. */
  lemma StepPostsNormalisedRecords(seen: set<string>, loggedIn: bool, txs: seq<Transaction>, replies: seq<PostReply>,
                                   bank: string, parse: string -> Option<Instant>, i: nat)
    requires |replies| == |txs|
    requires i < |Run(seen, loggedIn, txs, replies, bank, parse).attempts|
    requires Run(seen, loggedIn, txs, replies, bank, parse).attempts[i].sent.Some?
    ensures var a := Run(seen, loggedIn, txs, replies, bank, parse).attempts[i];
      var p := a.sent.value;
      a.tx in txs && parse(a.tx.created).Some?
      && p.amount == -a.tx.amount && p.name == DisplayName(a.tx) && p.merchantName == DisplayName(a.tx)
      && p.isPending == IsPending(a.tx) && p.spendingId.None? && p.adjustsBalance
      && p.bankAccountId == Some(bank) && p.date == FormatDate(parse(a.tx.created).value)
  {
    RunConsistent(seen, loggedIn, txs, replies, bank, parse);
    var a := Run(seen, loggedIn, txs, replies, bank, parse).attempts[i];
    PostedAmountNegates(a.tx.amount);
  }

  /** Once an exception ends the cycle, the rest of the batch is not looked at. */
  lemma {:induction false} RunAbortedPrefix(seen: set<string>, loggedIn: bool, txs: seq<Transaction>, replies: seq<PostReply>,
                                            bank: string, parse: string -> Option<Instant>, k: nat)
    requires |replies| == |txs| && k <= |txs|
    requires Run(seen, loggedIn, txs[..k], replies[..k], bank, parse).aborted
    ensures Run(seen, loggedIn, txs, replies, bank, parse) == Run(seen, loggedIn, txs[..k], replies[..k], bank, parse)
    decreases |txs|
  {
    if k < |txs| {
      var n := |txs| - 1;
      assert txs[..n][..k] == txs[..k] && replies[..n][..k] == replies[..k];
      RunAbortedPrefix(seen, loggedIn, txs[..n], replies[..n], bank, parse, k);
    } else {
      assert txs[..k] == txs && replies[..k] == replies;
    }
  }

  /** One more transaction of the batch: the step visits it unless the batch has already stopped. */
  lemma RunStep(seen: set<string>, loggedIn: bool, txs: seq<Transaction>, replies: seq<PostReply>,
                bank: string, parse: string -> Option<Instant>, i: nat)
    requires |replies| == |txs| && i < |txs|
    ensures var prev := Run(seen, loggedIn, txs[..i], replies[..i], bank, parse);
      Run(seen, loggedIn, txs[..i + 1], replies[..i + 1], bank, parse)
      == if prev.aborted then prev else Visit(prev, txs[i], replies[i], bank, parse)
  {
    assert txs[..i + 1][..i] == txs[..i] && replies[..i + 1][..i] == replies[..i];
  }

  /** The ids of the batch not in `seen`, in batch order. */
  function UnseenIds(txs: seq<Transaction>, seen: set<string>): seq<string>
  {
    if txs == [] then []
    else UnseenIds(txs[..|txs| - 1], seen) + (if txs[|txs| - 1].id in seen then [] else [txs[|txs| - 1].id])
  }

  function AttemptIds(attempts: seq<Attempt>): seq<string>
  {
    seq(|attempts|, i requires 0 <= i < |attempts| => attempts[i].tx.id)
  }

  predicate DistinctIds(txs: seq<Transaction>)
  {
    forall i, j :: 0 <= i < j < |txs| ==> txs[i].id != txs[j].id
  }

  /** When every timestamp parses, the cycle is not cut short; with distinct ids, exactly one call
      is made for each transaction not already seen, in batch order. */
  lemma {:induction false} StepPostsEachUnseenOnce(seen: set<string>, loggedIn: bool, txs: seq<Transaction>, replies: seq<PostReply>,
                                                   bank: string, parse: string -> Option<Instant>)
    requires |replies| == |txs|
    requires forall i :: 0 <= i < |txs| ==> parse(txs[i].created).Some?
    requires DistinctIds(txs)
    ensures !Run(seen, loggedIn, txs, replies, bank, parse).aborted
    ensures AttemptIds(Run(seen, loggedIn, txs, replies, bank, parse).attempts) == UnseenIds(txs, seen)
    decreases |txs|
  {
    if txs != [] {
      var n := |txs| - 1;
      assert forall i :: 0 <= i < n ==> txs[..n][i] == txs[i];
      StepPostsEachUnseenOnce(seen, loggedIn, txs[..n], replies[..n], bank, parse);
      var prev := Run(seen, loggedIn, txs[..n], replies[..n], bank, parse);
      LastNotYetSeen(seen, loggedIn, txs, replies, bank, parse);
      var r := Run(seen, loggedIn, txs, replies, bank, parse);
      if txs[n].id !in seen {
        assert r.attempts == prev.attempts + [r.attempts[|r.attempts| - 1]];
        assert AttemptIds(r.attempts) == AttemptIds(prev.attempts) + [txs[n].id];
      }
    }
  }

  /** With distinct ids, the last transaction of a batch is seen after the rest only if seeded. */
  lemma LastNotYetSeen(seen: set<string>, loggedIn: bool, txs: seq<Transaction>, replies: seq<PostReply>,
                       bank: string, parse: string -> Option<Instant>)
    requires |replies| == |txs| && txs != []
    requires DistinctIds(txs)
    ensures var n := |txs| - 1;
      txs[n].id in Run(seen, loggedIn, txs[..n], replies[..n], bank, parse).seen <==> txs[n].id in seen
  {
    var n := |txs| - 1;
    var t := txs[n];
    var prev := Run(seen, loggedIn, txs[..n], replies[..n], bank, parse);
    RunConsistent(seen, loggedIn, txs[..n], replies[..n], bank, parse);
    OkIdsMembers(prev.attempts, t.id);
  }

  /** The seed: every id on the page of a watched account whose fetch succeeded. */
  predicate SeededBy(accounts: seq<Account>, fetches: seq<FetchReply>, x: string)
    requires |fetches| == |accounts|
  {
    exists k :: 0 <= k < |accounts| && Watched(accounts[k]) && fetches[k].Fetched?
      && exists t :: t in fetches[k].transactions && t.id == x
  }

  /** The ids on one fetched page, in the order `get_transactions` returns them. */
  function PageIds(reply: FetchReply): set<string>
  {
    set t | t in GetTransactions(reply) :: t.id
  }

  lemma PageIdsMembers(reply: FetchReply, x: string)
    ensures x in PageIds(reply) <==> reply.Fetched? && exists t :: t in reply.transactions && t.id == x
  {
    GetTransactionsCorrect(reply);
    if reply.Fetched? {
      if exists t :: t in reply.transactions && t.id == x {
        var t :| t in reply.transactions && t.id == x;
        assert t in multiset(reply.transactions);
        assert t in GetTransactions(reply);
      }
      if x in PageIds(reply) {
        var t :| t in GetTransactions(reply) && t.id == x;
        assert t in multiset(GetTransactions(reply));
        assert t in reply.transactions;
      }
    }
  }

  /** `initial_transaction_ids`: the union of the ids fetched for every watched account. */
  method SeedIds(accounts: seq<Account>, fetches: seq<FetchReply>) returns (ids: set<string>)
    requires |fetches| == |accounts|
    ensures forall x :: x in ids <==> SeededBy(accounts, fetches, x)
  {
    ids := {};
    var k := 0;
    while k < |accounts|
      invariant 0 <= k <= |accounts|
      invariant forall x :: x in ids <==> SeededBy(accounts[..k], fetches[..k], x)
    {
      if Watched(accounts[k]) {
        ids := ids + PageIds(fetches[k]);
      }
      forall x ensures x in ids <==> SeededBy(accounts[..k + 1], fetches[..k + 1], x) {
        PageIdsMembers(fetches[k], x);
        SeededByExtend(accounts, fetches, k, x);
      }
      k := k + 1;
    }
    assert accounts[..k] == accounts && fetches[..k] == fetches;
  }

  lemma SeededByExtend(accounts: seq<Account>, fetches: seq<FetchReply>, k: nat, x: string)
    requires |fetches| == |accounts| && k < |accounts|
    ensures SeededBy(accounts[..k + 1], fetches[..k + 1], x) <==>
      SeededBy(accounts[..k], fetches[..k], x)
      || (Watched(accounts[k]) && fetches[k].Fetched? && exists t :: t in fetches[k].transactions && t.id == x)
  {
    var a1, f1 := accounts[..k + 1], fetches[..k + 1];
    var a0, f0 := accounts[..k], fetches[..k];
    if SeededBy(a1, f1, x) {
      var j :| 0 <= j < |a1| && Watched(a1[j]) && f1[j].Fetched? && exists t :: t in f1[j].transactions && t.id == x;
      if j < k { assert a0[j] == a1[j] && f0[j] == f1[j]; }
    }
    if SeededBy(a0, f0, x) {
      var j :| 0 <= j < |a0| && Watched(a0[j]) && f0[j].Fetched? && exists t :: t in f0[j].transactions && t.id == x;
      assert a1[j] == a0[j] && f1[j] == f0[j];
    }
    if Watched(accounts[k]) && fetches[k].Fetched? && exists t :: t in fetches[k].transactions && t.id == x {
      assert a1[k] == accounts[k] && f1[k] == fetches[k];
    }
  }

  /** How many transactions a fetch yields. */
  function PageLength(reply: FetchReply): nat
  {
    match reply
    case FetchFailed => 0
    case Fetched(ts) => |ts|
  }

  lemma GetTransactionsLength(reply: FetchReply)
    ensures |GetTransactions(reply)| == PageLength(reply)
  {
    GetTransactionsCorrect(reply);
    if reply.Fetched? {
      assert |multiset(GetTransactions(reply))| == |multiset(reply.transactions)|;
    }
  }

  /** The posting oracle fits the fetched pages: one answer per transaction of each page. */
  predicate RepliesFit(fetches: seq<FetchReply>, replies: seq<seq<PostReply>>)
  {
    |replies| == |fetches| && forall k :: 0 <= k < |fetches| ==> |replies[k]| == PageLength(fetches[k])
  }

  lemma RepliesFitPrefix(fetches: seq<FetchReply>, replies: seq<seq<PostReply>>, k: nat)
    requires RepliesFit(fetches, replies) && k <= |fetches|
    ensures RepliesFit(fetches[..k], replies[..k])
  {
    forall j | 0 <= j < k ensures |replies[..k][j]| == PageLength(fetches[..k][j]) {
      assert replies[..k][j] == replies[j] && fetches[..k][j] == fetches[j];
    }
  }

  /** The monitoring loop's body for one account: a watched account's page is fetched and
      forwarded, unless an exception has already ended the pass. */
  function AccountStep(prev: Progress, account: Account, fetch: FetchReply, replies: seq<PostReply>,
                       bank: string, parse: string -> Option<Instant>): Progress
    requires |replies| == PageLength(fetch)
  {
    if prev.aborted || !Watched(account) then prev
    else
      GetTransactionsLength(fetch);
      var r := Run(prev.seen, prev.loggedIn, GetTransactions(fetch), replies, bank, parse);
      Progress(r.seen, r.loggedIn, prev.attempts + r.attempts, r.aborted)
  }

  /** One pass of the monitoring loop over the accounts, in order; an exception ends the pass,
      later accounts waiting for the next one. */
  function Cycle(seen: set<string>, loggedIn: bool, accounts: seq<Account>, fetches: seq<FetchReply>,
                 replies: seq<seq<PostReply>>, bank: string, parse: string -> Option<Instant>): Progress
    requires |fetches| == |accounts| && RepliesFit(fetches, replies)
    decreases |accounts|
  {
    if accounts == [] then Progress(seen, loggedIn, [], false)
    else
      var n := |accounts| - 1;
      var prev := Cycle(seen, loggedIn, accounts[..n], fetches[..n], replies[..n], bank, parse);
      AccountStep(prev, accounts[n], fetches[n], replies[n], bank, parse)
  }

  /** One more account of the pass: its step runs on where the pass has got to. */
  lemma CycleStep(seen: set<string>, loggedIn: bool, accounts: seq<Account>, fetches: seq<FetchReply>,
                  replies: seq<seq<PostReply>>, bank: string, parse: string -> Option<Instant>, k: nat)
    requires |fetches| == |accounts| && RepliesFit(fetches, replies) && k < |accounts|
    ensures RepliesFit(fetches[..k], replies[..k]) && RepliesFit(fetches[..k + 1], replies[..k + 1])
    ensures Cycle(seen, loggedIn, accounts[..k + 1], fetches[..k + 1], replies[..k + 1], bank, parse)
      == AccountStep(Cycle(seen, loggedIn, accounts[..k], fetches[..k], replies[..k], bank, parse),
                     accounts[k], fetches[k], replies[k], bank, parse)
  {
    RepliesFitPrefix(fetches, replies, k);
    RepliesFitPrefix(fetches, replies, k + 1);
    assert accounts[..k + 1][..k] == accounts[..k] && fetches[..k + 1][..k] == fetches[..k]
        && replies[..k + 1][..k] == replies[..k];
  }

  lemma {:induction false} OkIdsAppend(a: seq<Attempt>, b: seq<Attempt>)
    ensures OkIds(a + b) == OkIds(a) + OkIds(b)
    decreases |b|
  {
    if b == [] {
      assert a + b == a;
    } else {
      var n := |b| - 1;
      assert (a + b)[..|a + b| - 1] == a + b[..n];
      OkIdsAppend(a, b[..n]);
    }
  }

  /** The seen-set is the seed plus the ids posted successfully, no seeded id is posted, and
      nothing is posted again once it has been posted successfully. */
  predicate SeenSound(seen: set<string>, p: Progress)
  {
    && p.seen == seen + OkIds(p.attempts)
    && (forall i :: 0 <= i < |p.attempts| ==> p.attempts[i].tx.id !in seen)
    && NoRetryAfterSuccess(p.attempts)
  }

  /** Appending the calls of a batch run on top of the seen-set `mid` keeps the seen-set's meaning. */
  lemma SoundAppend(seen: set<string>, mid: set<string>, a: seq<Attempt>, b: seq<Attempt>)
    requires mid == seen + OkIds(a) && NoRetryAfterSuccess(a) && NoRetryAfterSuccess(b)
    requires forall i :: 0 <= i < |a| ==> a[i].tx.id !in seen
    requires forall i :: 0 <= i < |b| ==> b[i].tx.id !in mid
    ensures mid + OkIds(b) == seen + OkIds(a + b)
    ensures forall i :: 0 <= i < |a + b| ==> (a + b)[i].tx.id !in seen
    ensures NoRetryAfterSuccess(a + b)
  {
    OkIdsAppend(a, b);
    var all := a + b;
    forall i, j | 0 <= i < j < |all| && all[i].ok ensures all[j].tx.id != all[i].tx.id {
      if j >= |a| && i < |a| {
        OkIdsMembers(a, all[i].tx.id);
        assert all[j] == b[j - |a|];
      }
      if i >= |a| {
        assert all[i] == b[i - |a|] && all[j] == b[j - |a|];
      }
    }
    forall i | 0 <= i < |all| ensures all[i].tx.id !in seen {
      if i >= |a| {
        assert all[i] == b[i - |a|];
      }
    }
  }

  lemma AccountStepSound(seen: set<string>, prev: Progress, account: Account, fetch: FetchReply, replies: seq<PostReply>,
                         bank: string, parse: string -> Option<Instant>)
    requires |replies| == PageLength(fetch) && SeenSound(seen, prev)
    ensures SeenSound(seen, AccountStep(prev, account, fetch, replies, bank, parse))
  {
    if !prev.aborted && Watched(account) {
      var batch := GetTransactions(fetch);
      GetTransactionsLength(fetch);
      RunConsistent(prev.seen, prev.loggedIn, batch, replies, bank, parse);
      var r := Run(prev.seen, prev.loggedIn, batch, replies, bank, parse);
      SoundAppend(seen, prev.seen, prev.attempts, r.attempts);
    }
  }

  /** Over a whole pass, across accounts, the seen-set keeps its meaning. */
  lemma {:induction false} CycleSeenSet(seen: set<string>, loggedIn: bool, accounts: seq<Account>, fetches: seq<FetchReply>,
                                        replies: seq<seq<PostReply>>, bank: string, parse: string -> Option<Instant>)
    requires |fetches| == |accounts| && RepliesFit(fetches, replies)
    ensures SeenSound(seen, Cycle(seen, loggedIn, accounts, fetches, replies, bank, parse))
    decreases |accounts|
  {
    if accounts != [] {
      var n := |accounts| - 1;
      CycleSeenSet(seen, loggedIn, accounts[..n], fetches[..n], replies[..n], bank, parse);
      var prev := Cycle(seen, loggedIn, accounts[..n], fetches[..n], replies[..n], bank, parse);
      AccountStepSound(seen, prev, accounts[n], fetches[n], replies[n], bank, parse);
    }
  }

  lemma {:induction false} CycleAbortedPrefix(seen: set<string>, loggedIn: bool, accounts: seq<Account>, fetches: seq<FetchReply>,
                                              replies: seq<seq<PostReply>>, bank: string, parse: string -> Option<Instant>, k: nat)
    requires |fetches| == |accounts| && RepliesFit(fetches, replies) && k <= |accounts|
    requires Cycle(seen, loggedIn, accounts[..k], fetches[..k], replies[..k], bank, parse).aborted
    ensures Cycle(seen, loggedIn, accounts, fetches, replies, bank, parse)
            == Cycle(seen, loggedIn, accounts[..k], fetches[..k], replies[..k], bank, parse)
    decreases |accounts|
  {
    if k < |accounts| {
      var n := |accounts| - 1;
      RepliesFitPrefix(fetches, replies, n);
      assert accounts[..n][..k] == accounts[..k] && fetches[..n][..k] == fetches[..k] && replies[..n][..k] == replies[..k];
      CycleAbortedPrefix(seen, loggedIn, accounts[..n], fetches[..n], replies[..n], bank, parse, k);
    } else {
      assert accounts[..k] == accounts && fetches[..k] == fetches && replies[..k] == replies;
    }
  }

  /** The monitor's state: the seen-set, the backend client whose session the posts share, and how
      timestamps are parsed (`datetime.strptime(created, '%Y-%m-%dT%H:%M:%S.%fZ')`, None where it raises). */
  class TransactionMonitor {
    var seen: set<string>
    const client: LocalApiClient
    const parse: string -> Option<Instant>

    /** Seeds the seen-set from the watched accounts' current transactions. */
    constructor (client: LocalApiClient, accounts: seq<Account>, fetches: seq<FetchReply>, parse: string -> Option<Instant>)
      requires |fetches| == |accounts|
      ensures this.client == client && this.parse == parse
      ensures forall x :: x in seen <==> SeededBy(accounts, fetches, x)
    {
      var ids := SeedIds(accounts, fetches);
      this.client := client;
      this.parse := parse;
      seen := ids;
    }

    /** One fetched batch: every transaction not yet seen is posted and, when the post returns
        normally, marked seen. An unparsable timestamp raises and ends the cycle there. */
    method ProcessBatch(txs: seq<Transaction>, replies: seq<PostReply>) returns (attempts: seq<Attempt>, aborted: bool)
      requires |replies| == |txs|
      modifies this, client
      ensures Run(old(seen), old(client.loggedIn), txs, replies, client.BankAccountId(), parse)
              == Progress(seen, client.loggedIn, attempts, aborted)
    {
      attempts, aborted := [], false;
      var i := 0;
      while i < |txs| && !aborted
        invariant 0 <= i <= |txs|
        invariant Run(old(seen), old(client.loggedIn), txs[..i], replies[..i], client.BankAccountId(), parse)
                  == Progress(seen, client.loggedIn, attempts, aborted)
      {
        var t := txs[i];
        ghost var before := Progress(seen, client.loggedIn, attempts, aborted);
        RunStep(old(seen), old(client.loggedIn), txs, replies, client.BankAccountId(), parse, i);
        if t.id !in seen {
          var amount := LoopAmount(t.amount);
          var name := DisplayName(t);
          var when := parse(t.created);
          if when.None? {
            aborted := true;
          } else {
            var ok, sent, _ := client.PostTransaction(amount, name, when.value, IsPending(t), replies[i]);
            if ok {
              seen := seen + {t.id};
            }
            attempts := attempts + [Attempt(t, sent, ok)];
          }
        }
        assert Progress(seen, client.loggedIn, attempts, aborted) == Visit(before, t, replies[i], client.BankAccountId(), parse);
        i := i + 1;
      }
      if aborted {
        RunAbortedPrefix(old(seen), old(client.loggedIn), txs, replies, client.BankAccountId(), parse, i);
      } else {
        assert txs[..i] == txs && replies[..i] == replies;
      }
    }

    /** One pass of the `while True` loop: every watched account's page, fetched and forwarded. */
    method PollCycle(accounts: seq<Account>, fetches: seq<FetchReply>, replies: seq<seq<PostReply>>)
      returns (attempts: seq<Attempt>, aborted: bool)
      requires |fetches| == |accounts| && RepliesFit(fetches, replies)
      modifies this, client
      ensures Cycle(old(seen), old(client.loggedIn), accounts, fetches, replies, client.BankAccountId(), parse)
              == Progress(seen, client.loggedIn, attempts, aborted)
    {
      attempts, aborted := [], false;
      var k := 0;
      RepliesFitPrefix(fetches, replies, 0);
      while k < |accounts| && !aborted
        invariant 0 <= k <= |accounts| && RepliesFit(fetches[..k], replies[..k])
        invariant Cycle(old(seen), old(client.loggedIn), accounts[..k], fetches[..k], replies[..k], client.BankAccountId(), parse)
                  == Progress(seen, client.loggedIn, attempts, aborted)
      {
        ghost var before := Progress(seen, client.loggedIn, attempts, aborted);
        CycleStep(old(seen), old(client.loggedIn), accounts, fetches, replies, client.BankAccountId(), parse, k);
        assert |replies[k]| == PageLength(fetches[k]);
        if Watched(accounts[k]) {
          var batch := GetTransactions(fetches[k]);
          GetTransactionsLength(fetches[k]);
          ghost var r := Run(seen, client.loggedIn, batch, replies[k], client.BankAccountId(), parse);
          var more, stopped := ProcessBatch(batch, replies[k]);
          assert r == Progress(seen, client.loggedIn, more, stopped);
          attempts := attempts + more;
          aborted := stopped;
        }
        assert Progress(seen, client.loggedIn, attempts, aborted)
            == AccountStep(before, accounts[k], fetches[k], replies[k], client.BankAccountId(), parse);
        k := k + 1;
      }
      if aborted {
        CycleAbortedPrefix(old(seen), old(client.loggedIn), accounts, fetches, replies, client.BankAccountId(), parse, k);
      } else {
        assert accounts[..k] == accounts && fetches[..k] == fetches && replies[..k] == replies;
      }
    }
  }
}
