/**
 The closing question of `main`: power the host off or not.

 The loop reads one operator line per turn. A line whose lower-case form is
 "y" powers the host off, one whose lower-case form is "n" declines, and any
 other line draws a warning and the question again. The operator's lines are
 given as a sequence; when they run out without an answer the program is
 still waiting at the question.
 */
module PowerPrompt {

  /** ASCII lower-casing of one character. */
  function LowerChar(c: char): char
  {
    if 'A' <= c <= 'Z' then (c as int + 32) as char else c
  }

  /** `str.lower()` restricted to ASCII letters. */
  function Lower(s: string): (r: string)
    ensures |r| == |s|
  {
    seq(|s|, i requires 0 <= i < |s| => LowerChar(s[i]))
  }

  predicate IsYes(line: string)
  {
    Lower(line) == "y"
  }

  predicate IsNo(line: string)
  {
    Lower(line) == "n"
  }

  /** The only accepted answers are the four one-letter lines. */
  lemma Answers(line: string)
    ensures IsYes(line) <==> line == "y" || line == "Y"
    ensures IsNo(line) <==> line == "n" || line == "N"
  {
    if |line| == 1 {
      assert Lower(line) == [LowerChar(line[0])];
      assert line == [line[0]];
    }
  }

  datatype Decision = PowerOff | StayOn

  /** How the question ended, and how many lines drew the warning first. */
  datatype PromptOutcome =
    | Decided(decision: Decision, reprompts: nat)
    | Awaiting(reprompts: nat)

  /** One more warned line before the outcome. */
  function AfterWarning(o: PromptOutcome): PromptOutcome
  {
    match o
    case Decided(d, n) => Decided(d, n + 1)
    case Awaiting(n) => Awaiting(n + 1)
  }

  /** The loop of `main` over the operator's lines. */
  function Prompt(lines: seq<string>): PromptOutcome
  {
    if |lines| == 0 then Awaiting(0)
    else if IsYes(lines[0]) then Decided(PowerOff, 0)
    else if IsNo(lines[0]) then Decided(StayOn, 0)
    else AfterWarning(Prompt(lines[1..]))
  }

  /** No line among these answers the question. */
  predicate Unanswered(lines: seq<string>)
  {
    forall j :: 0 <= j < |lines| ==> !IsYes(lines[j]) && !IsNo(lines[j])
  }

  /**
   The outcome is decided by the first answering line: power-off at position
   `k` exactly when line `k` is a yes and every earlier line answered nothing,
   likewise for a no, and the loop is still waiting exactly when no line
   answers.
   */
  lemma {:induction false} PromptFirstAnswer(lines: seq<string>, k: nat)
    ensures Prompt(lines) == Decided(PowerOff, k) <==> k < |lines| && IsYes(lines[k]) && Unanswered(lines[..k])
    ensures Prompt(lines) == Decided(StayOn, k) <==>
      k < |lines| && IsNo(lines[k]) && Unanswered(lines[..k])
    ensures Prompt(lines) == Awaiting(k) <==> k == |lines| && Unanswered(lines)
    decreases |lines|
  {
    if |lines| > 0 {
      var rest := lines[1..];
      if k > 0 {
        PromptFirstAnswer(rest, k - 1);
        if k <= |lines| {
          assert lines[..k] == [lines[0]] + rest[..k - 1];
        }
      } else {
        PromptFirstAnswer(rest, 0);
      }
      if Unanswered(lines) {
        assert Unanswered(rest) by {
          forall j | 0 <= j < |rest|
            ensures !IsYes(rest[j]) && !IsNo(rest[j])
          {
            assert rest[j] == lines[j + 1];
          }
        }
      }
      if k > 0 && Unanswered(rest) && !IsYes(lines[0]) && !IsNo(lines[0]) && k == |lines| {
        assert Unanswered(lines) by {
          forall j | 0 <= j < |lines|
            ensures !IsYes(lines[j]) && !IsNo(lines[j])
          {
            if j > 0 {
              assert lines[j] == rest[j - 1];
            }
          }
        }
      }
    }
  }

  /** Once the question is answered, later lines are never read. */
  lemma {:induction false} PromptIgnoresLaterLines(lines: seq<string>, more: seq<string>)
    requires Prompt(lines).Decided?
    ensures Prompt(lines + more) == Prompt(lines)
    decreases |lines|
  {
    assert (lines + more)[0] == lines[0];
    if !IsYes(lines[0]) && !IsNo(lines[0]) {
      assert (lines + more)[1..] == lines[1..] + more;
      PromptIgnoresLaterLines(lines[1..], more);
    }
  }
}
