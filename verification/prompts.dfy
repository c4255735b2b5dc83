/** The four prompt protocols of the wizard. The terminal is replaced by the
    finite sequence of lines the operator will type; every prompt consumes a
    prefix of it and returns its answer together with the lines it left
    unread. When the lines run out before a prompt is satisfied the prompt
    has no answer (`None`): there `input()` would raise end-of-file. */
module Prompts {
  import opened Wrappers
  import opened Text
  import opened Subsequences

  /** A prompt's answer and the input lines it did not read. */
  datatype Reply<T> = Reply(value: T, rest: seq<string>)

  /** `rest` is what remains of `input` after reading a prefix of it. */
  predicate Suffix(rest: seq<string>, input: seq<string>) {
    |rest| <= |input| && input[|input| - |rest|..] == rest
  }

  /** Reading on from where an earlier read stopped still reads a prefix. */
  lemma SuffixTrans(rest: seq<string>, mid: seq<string>, input: seq<string>)
    requires Suffix(rest, mid) && Suffix(mid, input)
    ensures Suffix(rest, input)
  {
    assert input[|input| - |rest|..] == input[|input| - |mid|..][|mid| - |rest|..];
  }

  /** The lines read when `rest` is what is left of `input`. */
  function Consumed(input: seq<string>, rest: seq<string>): seq<string>
    requires Suffix(rest, input)
  {
    input[..|input| - |rest|]
  }

  /** Every line, trimmed as the prompts trim what they read. */
  function StripAll(lines: seq<string>): (r: seq<string>)
    ensures |r| == |lines|
    ensures forall k :: 0 <= k < |lines| ==> r[k] == Strip(lines[k])
  {
    seq(|lines|, k requires 0 <= k < |lines| => Strip(lines[k]))
  }

  /** The re-prompt loop shared by the yes/no and the choice prompts: read a
      line, let `judge` decide it, and repeat until it accepts one. The
      answer is the verdict on the FIRST accepted line; every line before it
      was rejected, and everything after it is left unread. */
  function Ask<T>(input: seq<string>, judge: string -> Option<T>): (r: Option<Reply<T>>)
    decreases |input|
    ensures r.Some? <==> exists k :: 0 <= k < |input| && judge(input[k]).Some?
    ensures r.Some? ==>
      var n := |input| - |r.value.rest| - 1;
      && 0 <= n < |input|
      && r.value.rest == input[n + 1..]
      && judge(input[n]) == Some(r.value.value)
      && forall k :: 0 <= k < n ==> judge(input[k]).None?
  {
    if |input| == 0 then
      None
    else
      match judge(input[0])
      case Some(v) => Some(Reply(v, input[1..]))
      case None =>
        var r := Ask(input[1..], judge);
        assert forall k :: 1 <= k < |input| ==> input[1..][k - 1] == input[k];
        r
  }

  /** Free-text prompt: the trimmed line, or `default` (when there is one)
      if the trimmed line is empty. */
  function PromptStr(input: seq<string>, default: Option<string>): (r: Option<Reply<string>>)
    ensures r.Some? <==> |input| > 0
    ensures r.Some? ==> r.value.rest == input[1..] && Suffix(r.value.rest, input)
    ensures r.Some? && Strip(input[0]) != "" ==> r.value.value == Strip(input[0])
    ensures r.Some? && Strip(input[0]) == "" && default.Some? ==> r.value.value == default.value
    ensures r.Some? && default.None? ==> r.value.value == Strip(input[0])
    ensures r.Some? && default.Some? && default.value != "" ==> r.value.value != ""
  {
    if |input| == 0 then
      None
    else
      var value := Strip(input[0]);
      match default
      case Some(d) => Some(Reply(if value != "" then value else d, input[1..]))
      case None => Some(Reply(value, input[1..]))
  }

  /** A free-text prompt asked on the unread part `input` of `whole`
      answers from the line just before what it leaves unread. */
  lemma PromptStrLine(input: seq<string>, default: string, whole: seq<string>)
    requires Suffix(input, whole) && |input| > 0
    ensures var r := PromptStr(input, Some(default)).value;
      && |r.rest| < |whole|
      && var line := Strip(whole[|whole| - |r.rest| - 1]);
        r.value == if line != "" then line else default
  {
    assert input[0] == whole[|whole| - |input|];
  }

  /** What the yes/no prompt compares: the trimmed, lower-cased line. */
  function YesNoKey(line: string): string {
    Lower(Strip(line))
  }

  /** The lines the yes/no prompt accepts. */
  predicate IsYesNo(line: string) {
    YesNoKey(line) in {"", "y", "yes", "n", "no"}
  }

  /** The verdict of the yes/no prompt on one line. */
  function YesNoVerdict(line: string, default: bool): Option<bool> {
    var value := YesNoKey(line);
    if value == "" then Some(default)
    else if value == "y" || value == "yes" then Some(true)
    else if value == "n" || value == "no" then Some(false)
    else None
  }

  /** Yes/no prompt: the first line that is blank, y, yes, n or no (in any
      letter case, ignoring surrounding white space) decides; blank means
      `default`. Every other line is read and the question is asked again.
      Which line decides is stated by `PromptYesNoSpec`. */
  function PromptYesNo(input: seq<string>, default: bool): (r: Option<Reply<bool>>)
    ensures r.Some? ==> Suffix(r.value.rest, input) && |r.value.rest| < |input|
  {
    Ask(input, (line: string) => YesNoVerdict(line, default))
  }

  /** The yes/no prompt answers exactly when some line is acceptable; the
      answer comes from the first acceptable line, every earlier line having
      been rejected. */
  lemma PromptYesNoSpec(input: seq<string>, default: bool)
    ensures var r := PromptYesNo(input, default);
      && (r.Some? <==> exists k :: 0 <= k < |input| && IsYesNo(input[k]))
      && (r.Some? ==>
        var n := |input| - |r.value.rest| - 1;
        && 0 <= n < |input|
        && r.value.rest == input[n + 1..]
        && IsYesNo(input[n])
        && (forall k :: 0 <= k < n ==> !IsYesNo(input[k]))
        && (YesNoKey(input[n]) == "" ==> r.value.value == default)
        && (YesNoKey(input[n]) in {"y", "yes"} ==> r.value.value)
        && (YesNoKey(input[n]) in {"n", "no"} ==> !r.value.value))
  {
    var judge := (line: string) => YesNoVerdict(line, default);
    var r := Ask(input, judge);
    assert r == PromptYesNo(input, default);
    forall k | 0 <= k < |input|
      ensures judge(input[k]).Some? <==> IsYesNo(input[k])
    {
      YesNoVerdictMeaning(input[k], default);
    }
    if r.Some? {
      var n := |input| - |r.value.rest| - 1;
      YesNoVerdictMeaning(input[n], default);
    }
  }

  lemma YesNoVerdictMeaning(line: string, default: bool)
    ensures var v := YesNoVerdict(line, default);
      && (v.Some? <==> IsYesNo(line))
      && (YesNoKey(line) == "" ==> v == Some(default))
      && (YesNoKey(line) in {"y", "yes"} ==> v == Some(true))
      && (YesNoKey(line) in {"n", "no"} ==> v == Some(false))
  {
  }

  /** `default` counts only when it is given and non-empty (Python truthiness). */
  predicate HasDefault(default: Option<string>) {
    default.Some? && default.value != ""
  }

  /** The verdict of the choice prompt on one line. */
  function ChoiceVerdict(line: string, choices: seq<string>, default: Option<string>): Option<string> {
    var value := Strip(line);
    if value == "" && HasDefault(default) then Some(default.value)
    else if value in choices then Some(value)
    else None
  }

  /** Enumerated-choice prompt: a trimmed line that is exactly (case
      sensitively) one of `choices` is the answer; a blank line gives the
      default when there is a non-empty one; anything else is read and the
      question is asked again. So the answer is always one of `choices` or
      the default. Which line decides is stated by `PromptChoiceSpec`. */
  function PromptChoice(input: seq<string>, choices: seq<string>, default: Option<string>): (r: Option<Reply<string>>)
    ensures r.Some? ==> Suffix(r.value.rest, input) && |r.value.rest| < |input|
    ensures r.Some? ==> r.value.value in choices || (HasDefault(default) && r.value.value == default.value)
  {
    var r := Ask(input, (line: string) => ChoiceVerdict(line, choices, default));
    if r.Some? then
      var n := |input| - |r.value.rest| - 1;
      assert ChoiceVerdict(input[n], choices, default) == Some(r.value.value);
      r
    else
      r
  }

  /** The choice prompt answers exactly when some line is acceptable; the
      answer is the first acceptable line, trimmed, or the default when that
      line is blank; every earlier line named no choice and was not blank
      while a default was offered. */
  lemma PromptChoiceSpec(input: seq<string>, choices: seq<string>, default: Option<string>)
    ensures var r := PromptChoice(input, choices, default);
      && (r.Some? <==> exists k :: 0 <= k < |input| && ChoiceVerdict(input[k], choices, default).Some?)
      && (r.Some? ==>
        var n := |input| - |r.value.rest| - 1;
        && 0 <= n < |input|
        && r.value.rest == input[n + 1..]
        && (Strip(input[n]) == "" && HasDefault(default) ==> r.value.value == default.value)
        && (Strip(input[n]) != "" || !HasDefault(default) ==> r.value.value == Strip(input[n]) && r.value.value in choices)
        && forall k :: 0 <= k < n ==> Strip(input[k]) !in choices && (Strip(input[k]) != "" || !HasDefault(default)))
  {
    var r := PromptChoice(input, choices, default);
    if r.Some? {
      var n := |input| - |r.value.rest| - 1;
      assert ChoiceVerdict(input[n], choices, default) == Some(r.value.value);
      assert forall k :: 0 <= k < n ==> ChoiceVerdict(input[k], choices, default).None?;
    }
  }

  /** One pass of the list prompt: trimmed lines up to the first blank one,
      which ends the pass and is consumed. */
  function Collect(input: seq<string>): (r: Option<Reply<seq<string>>>)
    decreases |input|
    ensures r.Some? <==> exists k :: 0 <= k < |input| && Strip(input[k]) == ""
    ensures r.Some? ==>
      var n := |r.value.value|;
      && n < |input|
      && r.value.rest == input[n + 1..]
      && Strip(input[n]) == ""
      && r.value.value == StripAll(input[..n])
      && forall k :: 0 <= k < n ==> Strip(input[k]) != ""
  {
    if |input| == 0 then
      None
    else
      var value := Strip(input[0]);
      if value == "" then
        Some(Reply([], input[1..]))
      else
        var tail := Collect(input[1..]);
        match tail
        case None =>
          assert forall k :: 1 <= k < |input| ==> input[1..][k - 1] == input[k];
          None
        case Some(t) =>
          CollectStep(input, t.value, t.rest);
          Some(Reply([value] + t.value, t.rest))
  }

  /** A non-blank first line in front of a finished pass over the rest
      extends that pass by its trimmed text. */
  lemma CollectStep(input: seq<string>, items: seq<string>, rest: seq<string>)
    requires |input| > 0 && Strip(input[0]) != ""
    requires |items| < |input| - 1 && rest == input[|items| + 2..]
    requires Strip(input[|items| + 1]) == ""
    requires items == StripAll(input[1..|items| + 1])
    requires forall k :: 1 <= k < |items| + 1 ==> Strip(input[k]) != ""
    ensures var n := |items| + 1;
      && Strip(input[n]) == ""
      && [Strip(input[0])] + items == StripAll(input[..n])
      && forall k :: 0 <= k < n ==> Strip(input[k]) != ""
  {
    var n := |items| + 1;
    var whole := StripAll(input[..n]);
    forall k | 1 <= k < n
      ensures whole[k] == items[k - 1]
    {
      assert input[1..n][k - 1] == input[k];
    }
    assert [Strip(input[0])] + items == whole;
  }

  /** Some line is blank after trimming. */
  predicate HasBlank(input: seq<string>) {
    exists k :: 0 <= k < |input| && Strip(input[k]) == ""
  }

  /** Some non-blank line is followed, later on, by a blank one. */
  predicate HasItemThenBlank(input: seq<string>) {
    exists i, j :: 0 <= i < j < |input| && Strip(input[i]) != "" && Strip(input[j]) == ""
  }

  /** A pass that collected nothing consumed exactly one (blank) line;
      what the retry needs from the remaining lines is what was needed
      from the whole input. */
  lemma {:induction false} RetryNeedsSameInput(input: seq<string>)
    requires |input| > 0 && Strip(input[0]) == ""
    ensures HasItemThenBlank(input) <==> HasItemThenBlank(input[1..])
  {
    if HasItemThenBlank(input) {
      var i, j :| 0 <= i < j < |input| && Strip(input[i]) != "" && Strip(input[j]) == "";
      assert input[1..][i - 1] == input[i] && input[1..][j - 1] == input[j];
    }
    if HasItemThenBlank(input[1..]) {
      var i, j :| 0 <= i < j < |input[1..]| && Strip(input[1..][i]) != "" && Strip(input[1..][j]) == "";
      assert input[i + 1] == input[1..][i] && input[j + 1] == input[1..][j];
    }
  }

  /** Where the final pass of the list prompt sits in `input`: after `b`
      blank lines come the collected lines up to position `e`, then the
      blank line at `e` that ends the pass. */
  predicate FinalPass(input: seq<string>, items: seq<string>, rest: seq<string>) {
    var e := |input| - |rest| - 1;
    var b := e - |items|;
    && 0 <= b <= e < |input|
    && rest == input[e + 1..]
    && Strip(input[e]) == ""
    && items == StripAll(input[b..e])
    && (forall k :: b <= k < e ==> Strip(input[k]) != "")
    && (forall k :: 0 <= k < b ==> Strip(input[k]) == "")
  }

  /** A blank line in front of the input moves the final pass by one line. */
  lemma FinalPassShift(input: seq<string>, items: seq<string>, rest: seq<string>)
    requires |input| > 0 && Strip(input[0]) == ""
    requires FinalPass(input[1..], items, rest)
    ensures FinalPass(input, items, rest)
  {
    var tail := input[1..];
    var e := |tail| - |rest| - 1;
    var b := e - |items|;
    assert tail[e + 1..] == input[e + 2..];
    assert tail[b..e] == input[b + 1..e + 1];
    forall k | b + 1 <= k < e + 1
      ensures Strip(input[k]) != ""
    {
      assert input[k] == tail[k - 1];
    }
    forall k | 0 <= k < b + 1
      ensures Strip(input[k]) == ""
    {
      if k > 0 {
        assert input[k] == tail[k - 1];
      }
    }
  }

  /** List prompt: collect trimmed non-blank lines in order until a blank
      line. When `allowEmpty` is false and nothing was collected, the whole
      collection starts again from scratch, so the answer is then never
      empty. Where the answer comes from is stated by `PromptListSpec`. */
  function PromptList(input: seq<string>, allowEmpty: bool): (r: Option<Reply<seq<string>>>)
    decreases |input|
    ensures r.Some? ==> Suffix(r.value.rest, input) && |r.value.rest| < |input|
    ensures r.Some? && !allowEmpty ==> |r.value.value| > 0
  {
    var pass :- Collect(input);
    if |pass.value| == 0 && !allowEmpty then
      var r := PromptList(pass.rest, false);
      assert r.Some? ==> input[1..][|input| - 1 - |r.value.rest|..] == input[|input| - |r.value.rest|..];
      r
    else
      Some(pass)
  }

  /** The list prompt answers exactly when the input holds a blank line (one
      after a non-blank line, when an empty answer is refused). The lines
      read before the final pass are all blank; the final pass is the
      trimmed lines before the blank line that ends it; an allowed empty
      answer stops at the first blank line. */
  lemma {:induction false} PromptListSpec(input: seq<string>, allowEmpty: bool)
    decreases |input|
    ensures var r := PromptList(input, allowEmpty);
      && (r.Some? <==> if allowEmpty then HasBlank(input) else HasItemThenBlank(input))
      && (r.Some? ==> FinalPass(input, r.value.value, r.value.rest))
      && (r.Some? && allowEmpty ==> |input| - |r.value.rest| - 1 == |r.value.value|)
  {
    var r := PromptList(input, allowEmpty);
    match Collect(input)
    case None =>
      assert !HasBlank(input);
      assert !HasItemThenBlank(input);
    case Some(pass) =>
      if |pass.value| == 0 && !allowEmpty {
        assert pass.rest == input[1..];
        RetryNeedsSameInput(input);
        PromptListSpec(pass.rest, false);
        if r.Some? {
          FinalPassShift(input, r.value.value, r.value.rest);
        }
      } else {
        var n := |pass.value|;
        assert HasBlank(input) by {
          assert Strip(input[n]) == "";
        }
        assert !allowEmpty ==> HasItemThenBlank(input) by {
          if !allowEmpty {
            assert Strip(input[0]) != "" && Strip(input[n]) == "";
          }
        }
        assert input[..n] == input[0..n];
      }
  }
}
