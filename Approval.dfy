/** `wait_for_app_approval`: the console prompt that waits until the user says the app has been
    approved in the bank's app and an accounts listing confirms it. */
module Approval {
  import opened Strings

  /** How the prompt ends: approved, left with `exit`, or the console closed first (`input` raises). */
  datatype Outcome = Approved | Exited | InputExhausted

  /** What a typed line means once lower-cased and stripped. */
  datatype Answer = Yes | Exit | Other

  /** The answer a line stands for, by definition; `ClassifyAnyPadding` says which lines those are. */
  function Classify(line: string): (a: Answer)
    ensures a == Yes <==> Normalize(line) == "yes"
    ensures a == Exit <==> Normalize(line) == "exit"
  {
    var response := Normalize(line);
    if response == "yes" then Yes else if response == "exit" then Exit else Other
  }

  function Classified(lines: seq<string>): (r: seq<Answer>)
    ensures |r| == |lines| && forall i :: 0 <= i < |lines| ==> r[i] == Classify(lines[i])
  {
    seq(|lines|, i requires 0 <= i < |lines| => Classify(lines[i]))
  }

  /** The answer ends the wait: `exit`, or `yes` with a listing that succeeds. */
  predicate Decisive(answer: Answer, listed: bool)
  {
    answer == Exit || (answer == Yes && listed)
  }

  /** The prompt over the answers given; `listed[i]` is whether `get_accounts`, called after
      answer `i`, returns without raising. It checks no HTTP status, so any reply whose body is
      a JSON object counts, an error body included. `no` and any other answer ask again, as does a `yes` that
      the listing does not confirm. */
  function ApprovalSpec(answers: seq<Answer>, listed: seq<bool>): Outcome
    requires |listed| == |answers|
    decreases |answers|
  {
    if answers == [] then InputExhausted
    else if answers[0] == Yes && listed[0] then Approved
    else if answers[0] == Exit then Exited
    else ApprovalSpec(answers[1..], listed[1..])
  }

  /** One turn of the prompt, at answer `i`. */
  lemma ApprovalStep(answers: seq<Answer>, listed: seq<bool>, i: nat)
    requires |listed| == |answers| && i < |answers|
    ensures ApprovalSpec(answers[i..], listed[i..]) ==
      if answers[i] == Yes && listed[i] then Approved
      else if answers[i] == Exit then Exited
      else ApprovalSpec(answers[i + 1..], listed[i + 1..])
  {
    assert answers[i..][1..] == answers[i + 1..] && listed[i..][1..] == listed[i + 1..];
  }

  /** The first decisive answer at or after `from`, or `|answers|` if there is none. */
  function FirstDecisive(answers: seq<Answer>, listed: seq<bool>, from: nat): (k: nat)
    requires |listed| == |answers| && from <= |answers|
    ensures from <= k <= |answers|
    ensures forall j :: from <= j < k ==> !Decisive(answers[j], listed[j])
    ensures k < |answers| ==> Decisive(answers[k], listed[k])
    decreases |answers| - from
  {
    if from == |answers| || Decisive(answers[from], listed[from]) then from
    else FirstDecisive(answers, listed, from + 1)
  }

  /** The outcome a decisive answer at `k` gives, or running out of input. */
  function OutcomeAt(answers: seq<Answer>, listed: seq<bool>, k: nat): Outcome
    requires |listed| == |answers| && k <= |answers|
  {
    if k == |answers| then InputExhausted
    else if answers[k] == Yes && listed[k] then Approved
    else Exited
  }

  lemma {:induction false} ApprovalFrom(answers: seq<Answer>, listed: seq<bool>, from: nat)
    requires |listed| == |answers| && from <= |answers|
    ensures ApprovalSpec(answers[from..], listed[from..]) == OutcomeAt(answers, listed, FirstDecisive(answers, listed, from))
    decreases |answers| - from
  {
    if from < |answers| {
      ApprovalStep(answers, listed, from);
      if !Decisive(answers[from], listed[from]) {
        ApprovalFrom(answers, listed, from + 1);
      }
    }
  }

  /** The wait ends at the first decisive answer, with that answer's outcome. */
  lemma ApprovalFirstDecisive(answers: seq<Answer>, listed: seq<bool>)
    requires |listed| == |answers|
    ensures ApprovalSpec(answers, listed) == OutcomeAt(answers, listed, FirstDecisive(answers, listed, 0))
  {
    ApprovalFrom(answers, listed, 0);
    assert answers[0..] == answers && listed[0..] == listed;
  }

  /** A decisive answer with none before it is the first decisive answer. */
  lemma FirstDecisiveUnique(answers: seq<Answer>, listed: seq<bool>, i: nat)
    requires |listed| == |answers| && i < |answers| && Decisive(answers[i], listed[i])
    requires forall j :: 0 <= j < i ==> !Decisive(answers[j], listed[j])
    ensures FirstDecisive(answers, listed, 0) == i
  {
  }

  /** Approved exactly when some `yes` is confirmed before any `exit` and any earlier confirmed `yes`. */
  lemma ApprovedIff(answers: seq<Answer>, listed: seq<bool>)
    requires |listed| == |answers|
    ensures ApprovalSpec(answers, listed) == Approved <==>
      exists i :: 0 <= i < |answers| && answers[i] == Yes && listed[i]
                  && forall j :: 0 <= j < i ==> !Decisive(answers[j], listed[j])
  {
    ApprovalFirstDecisive(answers, listed);
    if exists i :: 0 <= i < |answers| && answers[i] == Yes && listed[i]
                   && forall j :: 0 <= j < i ==> !Decisive(answers[j], listed[j]) {
      var i :| 0 <= i < |answers| && answers[i] == Yes && listed[i]
               && forall j :: 0 <= j < i ==> !Decisive(answers[j], listed[j]);
      FirstDecisiveUnique(answers, listed, i);
    }
  }

  /** Left exactly when an `exit` comes before any confirmed `yes`. */
  lemma ExitedIff(answers: seq<Answer>, listed: seq<bool>)
    requires |listed| == |answers|
    ensures ApprovalSpec(answers, listed) == Exited <==>
      exists i :: 0 <= i < |answers| && answers[i] == Exit
                  && forall j :: 0 <= j < i ==> !Decisive(answers[j], listed[j])
  {
    ApprovalFirstDecisive(answers, listed);
    if exists i :: 0 <= i < |answers| && answers[i] == Exit
                   && forall j :: 0 <= j < i ==> !Decisive(answers[j], listed[j]) {
      var i :| 0 <= i < |answers| && answers[i] == Exit
               && forall j :: 0 <= j < i ==> !Decisive(answers[j], listed[j]);
      FirstDecisiveUnique(answers, listed, i);
    }
  }

  /** The prompt keeps asking as long as no answer is decisive. */
  lemma ExhaustedIff(answers: seq<Answer>, listed: seq<bool>)
    requires |listed| == |answers|
    ensures ApprovalSpec(answers, listed) == InputExhausted <==>
      forall j :: 0 <= j < |answers| ==> !Decisive(answers[j], listed[j])
  {
    ApprovalFirstDecisive(answers, listed);
  }

  /** Any capitalisation of `yes` or `exit`, surrounded by any whitespace, is that answer. */
  lemma ClassifyAnyPadding(pre: string, w: string, post: string)
    requires AllSpace(pre) && AllSpace(post)
    ensures Lower(w) == "yes" ==> Classify(pre + w + post) == Yes
    ensures Lower(w) == "exit" ==> Classify(pre + w + post) == Exit
  {
    LowerPadded(pre, w, post);
    var lw := Lower(w);
    if lw == "yes" || lw == "exit" {
      assert !IsSpace(lw[0]) && !IsSpace(lw[|lw| - 1]);
      StripPadded(pre, lw, post);
    }
  }

  /** Lines are compared after lower-casing and stripping, so `" YES\t"` is a `yes`. */
  lemma ClassifyPadded()
    ensures Classify(" YES\t") == Yes
  {
    assert Lower(" YES\t") == " yes\t";
    assert !IsSpace('y') && !IsSpace('s');
    assert StripStart("yes\t") == "yes\t";
    assert " yes\t"[1..] == "yes\t";
    assert StripStart(" yes\t") == "yes\t";
    assert "yes\t"[..3] == "yes";
    assert StripEnd("yes", true, ' ') == "yes";
    assert StripEnd("yes\t", true, ' ') == "yes";
  }

  /** Case does not matter, but a prefix of a word is not the word. */
  lemma ClassifyWords()
    ensures Classify("Exit") == Exit
    ensures Classify("y") == Other
  {
    assert Lower("Exit") == "exit";
    assert !IsSpace('e') && !IsSpace('t') && !IsSpace('y');
    assert StripStart("exit") == "exit";
    assert StripEnd("exit", true, ' ') == "exit";
    assert Lower("y") == "y";
    assert StripStart("y") == "y";
    assert StripEnd("y", true, ' ') == "y";
  }

  /** The `while True` loop over the lines typed; True is `Approved`, False is `Exited`. */
  method WaitForAppApproval(lines: seq<string>, listed: seq<bool>) returns (outcome: Outcome)
    requires |listed| == |lines|
    ensures outcome == ApprovalSpec(Classified(lines), listed)
  {
    ghost var answers := Classified(lines);
    var i := 0;
    while i < |lines|
      invariant 0 <= i <= |lines|
      invariant ApprovalSpec(answers, listed) == ApprovalSpec(answers[i..], listed[i..])
    {
      ApprovalStep(answers, listed, i);
      var response := Normalize(lines[i]);
      if response == "yes" {
        if listed[i] {
          return Approved;
        }
      } else if response == "exit" {
        return Exited;
      }
      i := i + 1;
    }
    assert answers[i..] == [];
    return InputExhausted;
  }
}
