/** `AuthHandler.do_GET`: the OAuth callback's query is taken apart with plain `str.split`
    (no URL decoding) and turned into a dict; the `code` entry is what is kept. */
module Callback {
  import opened Wrappers
  import opened Strings

  /** `dict(pairs)`: later pairs override earlier ones with the same key. */
  function DictOf(pairs: seq<(string, string)>): map<string, string>
    decreases |pairs|
  {
    if pairs == [] then map[]
    else DictOf(pairs[..|pairs| - 1])[pairs[|pairs| - 1].0 := pairs[|pairs| - 1].1]
  }

  /** A key is in the dict exactly when some pair has it, and it maps to the value of the last such pair. */
  lemma {:induction false} DictOfLastWins(pairs: seq<(string, string)>, k: string)
    ensures k in DictOf(pairs) <==> exists i :: 0 <= i < |pairs| && pairs[i].0 == k
    ensures forall i :: 0 <= i < |pairs| && pairs[i].0 == k && (forall j :: i < j < |pairs| ==> pairs[j].0 != k)
              ==> k in DictOf(pairs) && DictOf(pairs)[k] == pairs[i].1
    decreases |pairs|
  {
    if pairs != [] {
      var init := pairs[..|pairs| - 1];
      DictOfLastWins(init, k);
      if pairs[|pairs| - 1].0 != k {
        forall i | 0 <= i < |init| && init[i].0 == k ensures pairs[i].0 == k { }
        forall i | 0 <= i < |pairs| && pairs[i].0 == k ensures i < |init| && init[i] == pairs[i] { }
      }
    }
  }

  /** One `qc.split('=')` turned into a dict entry: None where `dict` raises because the split did
      not give exactly two parts. */
  function PairOf(component: string): Option<(string, string)>
  {
    var kv := Split(component, '=');
    if |kv| == 2 then Some((kv[0], kv[1])) else None
  }

  /** The entries for all components, None if any of them does not split in two. */
  function PairsOf(components: seq<string>): (r: Option<seq<(string, string)>>)
    ensures r.Some? ==> |r.value| == |components|
    decreases |components|
  {
    if components == [] then Some([])
    else match PairOf(components[0])
      case None => None
      case Some(p) =>
        match PairsOf(components[1..])
        case None => None
        case Some(ps) => Some([p] + ps)
  }

  /** `dict(qc.split('=') for qc in path.split('?')[1].split('&'))`: None where the expression raises
      (no '?' at all, or a component without exactly one '='). */
  function QueryComponents(path: string): Option<map<string, string>>
  {
    var parts := Split(path, '?');
    if |parts| < 2 then None
    else match PairsOf(Split(parts[1], '&'))
      case None => None
      case Some(pairs) => Some(DictOf(pairs))
  }

  /** The outcome of a callback request: the HTTP status sent and the code to store, if any. */
  datatype Reply = Reply(status: int, code: Option<string>)

  /** `do_GET`: 200 and the code when the query holds one, 400 and nothing stored otherwise. */
  function HandleCallback(path: string): (r: Reply)
    ensures r.status == 200 || r.status == 400
    ensures r.code.Some? <==> r.status == 200
  {
    match QueryComponents(path)
    case Some(query) =>
      if "code" in query then Reply(200, Some(query["code"])) else Reply(400, None)
    case None => Reply(400, None)
  }

  /** The query text the handler looks at: what follows the first '?' up to the next one. */
  function QueryText(path: string): string
    requires '?' in path
  {
    Split(path, '?')[1]
  }

  /** A component is a well-formed pair when it holds exactly one '='. */
  predicate WellFormed(component: string)
  {
    Count(component, '=') == 1
  }

  lemma PairOfWellFormed(component: string)
    ensures PairOf(component).Some? <==> WellFormed(component)
    ensures WellFormed(component) ==>
      (PairOf(component).value.0 == "code" <==> StartsWith(component, "code="))
  {
    var kv := Split(component, '=');
    if |kv| == 2 {
      JoinTwo(kv, '=');
      if StartsWith(component, "code=") {
        PrefixBeforeSeparator(kv[0], kv[1], "code");
      }
    }
  }

  /** Position of the first `c` in `s`. */
  function FirstIndex(s: string, c: char): nat
    requires c in s
  {
    if s[0] == c then 0 else 1 + FirstIndex(s[1..], c)
  }

  lemma {:induction false} FirstIndexAfter(x: string, c: char, rest: string)
    requires c !in x
    ensures c in x + [c] + rest && FirstIndex(x + [c] + rest, c) == |x|
    decreases |x|
  {
    if x != [] {
      assert (x + [c] + rest)[1..] == x[1..] + [c] + rest;
      FirstIndexAfter(x[1..], c, rest);
    }
  }

  /** In `a + "=" + b` where `a` has no '=', a prefix `p + "="` with no '=' in `p` must be `a + "="`. */
  lemma PrefixBeforeSeparator(a: string, b: string, p: string)
    requires '=' !in a && '=' !in p
    requires StartsWith(a + "=" + b, p + "=")
    ensures a == p
  {
    var s := a + "=" + b;
    assert s == p + "=" + s[|p| + 1..];
    FirstIndexAfter(a, '=', b);
    FirstIndexAfter(p, '=', s[|p| + 1..]);
    assert a == s[..|a|] == p;
  }

  lemma {:induction false} PairsOfAll(components: seq<string>)
    ensures PairsOf(components).Some? <==> forall i :: 0 <= i < |components| ==> WellFormed(components[i])
    ensures PairsOf(components).Some? ==>
      forall i :: 0 <= i < |components| ==> Some(PairsOf(components).value[i]) == PairOf(components[i])
    decreases |components|
  {
    if components != [] {
      PairOfWellFormed(components[0]);
      PairsOfAll(components[1..]);
      if PairsOf(components).Some? {
        var ps := PairsOf(components).value;
        forall i | 0 <= i < |components| ensures Some(ps[i]) == PairOf(components[i]) {
          if i > 0 { assert ps[i] == PairsOf(components[1..]).value[i - 1]; }
        }
      }
      if forall i :: 0 <= i < |components| ==> WellFormed(components[i]) {
        forall i | 0 <= i < |components[1..]| ensures WellFormed(components[1..][i]) {
          assert components[1..][i] == components[i + 1];
        }
      } else {
        var i :| 0 <= i < |components| && !WellFormed(components[i]);
        if i > 0 { assert components[1..][i - 1] == components[i]; }
      }
    }
  }

  predicate AllWellFormed(components: seq<string>)
  {
    forall i :: 0 <= i < |components| ==> WellFormed(components[i])
  }

  predicate HasCode(components: seq<string>)
  {
    exists i :: 0 <= i < |components| && StartsWith(components[i], "code=")
  }

  /** The dict built from the components exists and has a `code` key exactly when every component
      is a well-formed pair and one of them is `code=...`. */
  lemma QueryHasCode(components: seq<string>)
    ensures (PairsOf(components).Some? && "code" in DictOf(PairsOf(components).value))
            <==> AllWellFormed(components) && HasCode(components)
  {
    PairsOfAll(components);
    if PairsOf(components).Some? {
      var pairs := PairsOf(components).value;
      DictOfLastWins(pairs, "code");
      forall i | 0 <= i < |components| ensures pairs[i].0 == "code" <==> StartsWith(components[i], "code=") {
        PairOfWellFormed(components[i]);
      }
      if HasCode(components) {
        var i :| 0 <= i < |components| && StartsWith(components[i], "code=");
        assert pairs[i].0 == "code";
      }
    }
  }

  /** The handler answers 200 exactly when the path has a '?', every '&'-separated component of
      the query holds exactly one '=', and some component is `code=...`. */
  lemma CallbackAccepts(path: string)
    ensures HandleCallback(path).status == 200 <==>
      '?' in path && AllWellFormed(Split(QueryText(path), '&')) && HasCode(Split(QueryText(path), '&'))
  {
    CountPositive(path, '?');
    if '?' in path {
      QueryHasCode(Split(QueryText(path), '&'));
    }
  }

  /** The code stored is the value of the last `code=` component. */
  lemma {:induction false} CallbackStoresLastCode(path: string, i: nat)
    requires '?' in path
    requires forall j :: 0 <= j < |Split(QueryText(path), '&')| ==> WellFormed(Split(QueryText(path), '&')[j])
    requires i < |Split(QueryText(path), '&')| && StartsWith(Split(QueryText(path), '&')[i], "code=")
    requires forall j :: i < j < |Split(QueryText(path), '&')| ==> !StartsWith(Split(QueryText(path), '&')[j], "code=")
    ensures HandleCallback(path) == Reply(200, Some(Split(QueryText(path), '&')[i][5..]))
  {
    var comps := Split(QueryText(path), '&');
    CountPositive(path, '?');
    PairsOfAll(comps);
    var pairs := PairsOf(comps).value;
    assert QueryComponents(path) == Some(DictOf(pairs));
    forall j | 0 <= j < |comps| ensures pairs[j].0 == "code" <==> StartsWith(comps[j], "code=") {
      PairOfWellFormed(comps[j]);
    }
    DictOfLastWins(pairs, "code");
    var kv := Split(comps[i], '=');
    PairOfWellFormed(comps[i]);
    JoinTwo(kv, '=');
    assert kv[0] == "code";
    assert comps[i][5..] == kv[1];
  }

  lemma JoinTwo(kv: seq<string>, sep: char)
    requires |kv| == 2
    ensures Join(kv, sep) == kv[0] + [sep] + kv[1]
  {
    assert kv[1..] == [kv[1]];
  }

  lemma {:induction false} CountPositive(s: string, c: char)
    ensures c in s <==> Count(s, c) > 0
    decreases |s|
  {
    if s != [] {
      CountPositive(s[1..], c);
      assert s == [s[0]] + s[1..];
    }
  }

  /** A component `key=value` (with `key` ending in its '=') whose parts hold none of the query's separators. */
  lemma PlainComponent(key: string, value: string)
    requires |key| > 0 && key[|key| - 1] == '=' && '?' !in key && '&' !in key && '=' !in key[..|key| - 1]
    requires '?' !in value && '&' !in value && '=' !in value
    ensures var c := key + value;
      '?' !in c && '&' !in c && WellFormed(c) && StartsWith(c, key) && c[|key|..] == value
  {
    var c := key + value;
    var name := key[..|key| - 1];
    assert c == name + ['='] + value;
    SplitAround(name, value, '=');
    assert forall i :: 0 <= i < |c| ==> c[i] == if i < |key| then key[i] else value[i - |key|];
  }

  /** The query of `<prefix>?code=<code>&state=<state>` splits into its two components. */
  lemma RedirectComponents(prefix: string, code: string, state: string)
    requires '?' !in prefix
    requires '?' !in code && '&' !in code && '=' !in code
    requires '?' !in state && '&' !in state && '=' !in state
    ensures var path := prefix + "?" + ("code=" + code) + "&" + ("state=" + state);
      '?' in path && Split(QueryText(path), '&') == ["code=" + code, "state=" + state]
  {
    var first, second := "code=" + code, "state=" + state;
    PlainComponent("code=", code);
    PlainComponent("state=", state);
    var query := first + ['&'] + second;
    var path := prefix + "?" + first + "&" + second;
    assert path == prefix + ['?'] + query;
    SplitAround(prefix, query, '?');
    SplitAround(first, second, '&');
  }

  /** The redirect the provider sends back to the registered callback URI (`/callback`, or any
      other path without a '?'), `<prefix>?code=<code>&state=<state>`, is accepted and its code
      kept. */
  lemma TypicalCallback(prefix: string, code: string, state: string)
    requires '?' !in prefix
    requires '?' !in code && '&' !in code && '=' !in code
    requires '?' !in state && '&' !in state && '=' !in state
    ensures HandleCallback(prefix + "?" + ("code=" + code) + "&" + ("state=" + state)) == Reply(200, Some(code))
  {
    var path := prefix + "?" + ("code=" + code) + "&" + ("state=" + state);
    RedirectComponents(prefix, code, state);
    PlainComponent("code=", code);
    PlainComponent("state=", state);
    var comps := Split(QueryText(path), '&');
    assert WellFormed(comps[0]) && WellFormed(comps[1]) && comps[1][0] == 's';
    assert forall j :: 0 <= j < |comps| ==> WellFormed(comps[j]);
    CallbackStoresLastCode(path, 0);
  }

  /** The path the bridge's own redirect URI delivers. */
  lemma BridgeCallback(code: string, state: string)
    requires '?' !in code && '&' !in code && '=' !in code
    requires '?' !in state && '&' !in state && '=' !in state
    ensures HandleCallback("/callback" + "?" + ("code=" + code) + "&" + ("state=" + state)) == Reply(200, Some(code))
  {
    assert forall i :: 0 <= i < |"/callback"| ==> "/callback"[i] != '?';
    TypicalCallback("/callback", code, state);
  }
}
