/** The banking API's records as the bridge reads them, and `get_transactions`, which returns a
    fetched page newest first, or nothing when the fetch fails. */
module Transactions {
  import opened Wrappers
  import opened Strings

  /** A JSON scalar that the bridge only tests for truth (`settled` is a timestamp, empty when unsettled). */
  datatype Scalar = Null | Bool(b: bool) | Text(s: string)

  /** Python truthiness of a scalar. */
  predicate Truthy(v: Scalar)
  {
    match v
    case Null => false
    case Bool(b) => b
    case Text(s) => s != ""
  }

  /** An expanded merchant object; `name` None when absent or null. */
  datatype Merchant = Merchant(name: Option<string>)

  /** A transaction as fetched. Optional fields are None when the key is absent; `merchant` is also
      None when it is null or an empty object. */
  datatype Transaction = Transaction(
    id: string,
    amount: int,            // minor units, as the banking API sends it
    created: string,
    settled: Option<Scalar>,
    merchant: Option<Merchant>,
    description: Option<string>)

  datatype Account = Account(id: string, accountType: string)

  /** An account the monitor watches. */
  predicate Watched(a: Account)
  {
    a.accountType == "us_partner"
  }

  /** The outcome of the `/transactions` request: any raised error (network, HTTP status, JSON),
      or the page's `transactions` list (empty when the key is absent). */
  datatype FetchReply = FetchFailed | Fetched(transactions: seq<Transaction>)

  /** `a` sorts before `b` in `sorted(..., key=created, reverse=True)`. */
  predicate Newer(a: Transaction, b: Transaction)
  {
    LexLess(b.created, a.created)
  }

  /** Newest first: no transaction is older than one after it. */
  predicate NewestFirst(s: seq<Transaction>)
  {
    forall i, j :: 0 <= i < j < |s| ==> !Newer(s[j], s[i])
  }

  /** The transactions with a given `created` value, in their order. */
  function WithCreated(s: seq<Transaction>, created: string): seq<Transaction>
  {
    if s == [] then []
    else (if s[0].created == created then [s[0]] else []) + WithCreated(s[1..], created)
  }

  /** Places `t` before the first element that is not newer than it: a stable insertion. */
  function Insert(t: Transaction, s: seq<Transaction>): (r: seq<Transaction>)
    ensures multiset(r) == multiset(s) + multiset{t}
    ensures |r| == |s| + 1
    decreases |s|
  {
    if s == [] || !Newer(s[0], t) then [t] + s
    else
      assert s == [s[0]] + s[1..];
      [s[0]] + Insert(t, s[1..])
  }

  /** Python's stable `sorted(s, key=lambda x: x['created'], reverse=True)`. */
  function SortNewestFirst(s: seq<Transaction>): seq<Transaction>
    decreases |s|
  {
    if s == [] then [] else Insert(s[0], SortNewestFirst(s[1..]))
  }

  /** `get_transactions`: the page sorted newest first, or the empty list on any error. */
  function GetTransactions(reply: FetchReply): seq<Transaction>
  {
    match reply
    case FetchFailed => []
    case Fetched(ts) => SortNewestFirst(ts)
  }

  lemma {:induction false} InsertNewestFirst(t: Transaction, s: seq<Transaction>)
    requires NewestFirst(s)
    ensures NewestFirst(Insert(t, s))
    decreases |s|
  {
    if s == [] || !Newer(s[0], t) {
      var r := [t] + s;
      forall i, j | 0 <= i < j < |r| ensures !Newer(r[j], r[i]) {
        if i == 0 {
          NotNewerChain(s, t, j - 1);
        }
      }
    } else {
      InsertNewestFirst(t, s[1..]);
      var r := Insert(t, s);
      assert r == [s[0]] + Insert(t, s[1..]);
      forall i, j | 0 <= i < j < |r| ensures !Newer(r[j], r[i]) {
        if i == 0 {
          var x := r[j];
          assert x in multiset(Insert(t, s[1..]));
          assert x in multiset(s[1..]) + multiset{t};
          if x == t {
            LexLessAsymmetric(t.created, s[0].created);
          } else {
            assert x in s[1..];
            var k :| 0 <= k < |s[1..]| && s[1..][k] == x;
            assert s[k + 1] == x;
          }
        }
      }
    }
  }

  /** If `t` is not older than the head of a newest-first list, it is not older than any element. */
  lemma NotNewerChain(s: seq<Transaction>, t: Transaction, k: nat)
    requires NewestFirst(s) && s != [] && !Newer(s[0], t) && k < |s|
    ensures !Newer(s[k], t)
  {
    if k > 0 && Newer(s[k], t) {
      assert !Newer(s[k], s[0]);
      if s[0].created != t.created {
        LexLessTotal(s[0].created, t.created);
        LexLessTransitive(s[0].created, t.created, s[k].created);
      }
    }
  }

  lemma LexLessAsymmetric(a: string, b: string)
    requires LexLess(a, b)
    ensures !LexLess(b, a)
  {
    if LexLess(b, a) {
      LexLessTransitive(a, b, a);
      LexLessIrreflexive(a);
    }
  }

  /** The sort returns the same transactions, newest first. */
  lemma {:induction false} SortNewestFirstCorrect(s: seq<Transaction>)
    ensures multiset(SortNewestFirst(s)) == multiset(s)
    ensures NewestFirst(SortNewestFirst(s))
    decreases |s|
  {
    if s != [] {
      SortNewestFirstCorrect(s[1..]);
      InsertNewestFirst(s[0], SortNewestFirst(s[1..]));
      assert s == [s[0]] + s[1..];
    }
  }

  lemma {:induction false} InsertStable(t: Transaction, s: seq<Transaction>, created: string)
    ensures WithCreated(Insert(t, s), created)
         == (if t.created == created then [t] else []) + WithCreated(s, created)
    decreases |s|
  {
    if s == [] || !Newer(s[0], t) {
      assert ([t] + s)[1..] == s;
    } else {
      InsertStable(t, s[1..], created);
      assert ([s[0]] + Insert(t, s[1..]))[1..] == Insert(t, s[1..]);
      if t.created == created {
        LexLessIrreflexive(t.created);
        assert s[0].created != created;
      }
    }
  }

  /** The sort is stable: transactions created at the same instant keep their fetched order. */
  lemma {:induction false} SortNewestFirstStable(s: seq<Transaction>, created: string)
    ensures WithCreated(SortNewestFirst(s), created) == WithCreated(s, created)
    decreases |s|
  {
    if s != [] {
      SortNewestFirstStable(s[1..], created);
      InsertStable(s[0], SortNewestFirst(s[1..]), created);
    }
  }

  /** A failed fetch yields nothing; a page yields a newest-first permutation of itself. */
  lemma GetTransactionsCorrect(reply: FetchReply)
    ensures reply.FetchFailed? ==> GetTransactions(reply) == []
    ensures reply.Fetched? ==> multiset(GetTransactions(reply)) == multiset(reply.transactions)
    ensures NewestFirst(GetTransactions(reply))
  {
    if reply.Fetched? { SortNewestFirstCorrect(reply.transactions); }
  }
}
