/**
 * The operator prompts (src/main.rs:424-475 and 552-562): each reads lines until one,
 * trimmed, passes its check. Standard input is a scripted sequence of lines; once it
 * is exhausted `read_line` yields the empty string for ever, which no check accepts.
 */
module Prompt {
  import opened Wrappers
  import opened Text

  /** The three things the program asks for. */
  datatype Question = Resolution | Year | Month

  /** The check a trimmed line must pass: "1", "2" or "3"; four bytes that parse as `i32`;
   *  two bytes that parse as `u32`. */
  predicate Accepts(q: Question, token: string) {
    match q
    case Resolution => token == "1" || token == "2" || token == "3"
    case Year => Utf8Len(token) == 4 && ParseI32(token).Some?
    case Month => Utf8Len(token) == 2 && ParseU32(token).Some?
  }

  /** The accepted token and how many lines were read to get it. */
  datatype Answer = Answer(token: string, read: nat)

  /** The first line at `from` or later that passes the check, trimmed, with the number of
   *  lines read up to and including it; None when no line does, and then the prompt loops
   *  for ever on the empty input. */
  function FirstAcceptedFrom(q: Question, lines: seq<string>, from: nat): (r: Option<Answer>)
    ensures r.Some? ==> from < r.value.read <= |lines| && r.value.token == Trim(lines[r.value.read - 1])
                        && Accepts(q, r.value.token)
    decreases |lines| - from
  {
    if from >= |lines| then None
    else
      var token := Trim(lines[from]);
      if Accepts(q, token) then Some(Answer(token, from + 1))
      else FirstAcceptedFrom(q, lines, from + 1)
  }

  /** Every line read before the accepted one was refused; with no answer, every line was. */
  lemma {:induction false} EarlierLinesRefused(q: Question, lines: seq<string>, from: nat)
    ensures var r := FirstAcceptedFrom(q, lines, from);
            && (r.Some? ==> forall k :: from <= k < r.value.read - 1 ==> !Accepts(q, Trim(lines[k])))
            && (r.None? ==> forall k :: from <= k < |lines| ==> !Accepts(q, Trim(lines[k])))
    decreases |lines| - from
  {
    if from < |lines| && !Accepts(q, Trim(lines[from])) {
      var r := FirstAcceptedFrom(q, lines, from + 1);
      assert FirstAcceptedFrom(q, lines, from) == r;
      EarlierLinesRefused(q, lines, from + 1);
      var bound := if r.Some? then r.value.read - 1 else |lines|;
      assert forall k :: from + 1 <= k < bound ==> !Accepts(q, Trim(lines[k]));
      assert forall k :: from <= k < bound ==> !Accepts(q, Trim(lines[k]));
    }
  }

  /** The answer a prompt gets from the lines still to be read. */
  function FirstAccepted(q: Question, lines: seq<string>): Option<Answer> {
    FirstAcceptedFrom(q, lines, 0)
  }

  /** The prompt loop itself: read, trim, check, and ask again. */
  method Ask(q: Question, lines: seq<string>) returns (r: Option<Answer>)
    ensures r == FirstAccepted(q, lines)
  {
    var i := 0;
    while i < |lines|
      invariant 0 <= i <= |lines|
      invariant FirstAcceptedFrom(q, lines, i) == FirstAccepted(q, lines)
    {
      var input := Trim(lines[i]);
      if Accepts(q, input) {
        return Some(Answer(input, i + 1));
      }
      i := i + 1;
    }
    r := None;
  }

  /** How a run of the program stops for good: a panic, a prompt spinning on an exhausted
   *  input, or a recursion that never ends and overflows the stack. */
  datatype Halt = Panic | Hang | Overflow

  /** A value computed while reading standard input, with the lines still unread; or a halt. */
  datatype Reply<T> = Reply(value: T, rest: seq<string>) | Halted(halt: Halt)

  /** `rest` is what remains of `input` once some of its lines have been read. */
  predicate Remains(rest: seq<string>, input: seq<string>) {
    |rest| <= |input| && rest == input[|input| - |rest|..]
  }

  lemma RemainsTransitive(a: seq<string>, b: seq<string>, c: seq<string>)
    requires Remains(a, b) && Remains(b, c)
    ensures Remains(a, c)
  {
    assert c[|c| - |b|..][|b| - |a|..] == c[|c| - |a|..];
  }

  /** A reply computed from lines that remain of `input` leaves lines that remain of `input`. */
  lemma ReplyRemains<T>(r: Reply<T>, mid: seq<string>, input: seq<string>)
    requires Remains(mid, input)
    requires r.Reply? ==> Remains(r.rest, mid)
    ensures r.Reply? ==> Remains(r.rest, input)
  {
    if r.Reply? {
      RemainsTransitive(r.rest, mid, input);
    }
  }

  /** One prompt over the input: the first accepted token and the lines after it, or a
   *  hang when no line is accepted. */
  function Prompted(q: Question, input: seq<string>): (r: Reply<string>)
    ensures r.Reply? ==> Accepts(q, r.value) && |r.rest| < |input| && Remains(r.rest, input)
    ensures r.Reply? ==> var n := |input| - |r.rest|;
                         r.value == Trim(input[n - 1]) && forall k :: 0 <= k < n - 1 ==> !Accepts(q, Trim(input[k]))
    ensures r.Reply? <==> FirstAccepted(q, input).Some?
    ensures r.Reply? ==> FirstAccepted(q, input) == Some(Answer(r.value, |input| - |r.rest|))
    ensures r.Halted? ==> r.halt == Hang && forall k :: 0 <= k < |input| ==> !Accepts(q, Trim(input[k]))
  {
    EarlierLinesRefused(q, input, 0);
    match FirstAccepted(q, input)
    case None => Halted(Hang)
    case Some(a) => Reply(a.token, input[a.read..])
  }

  /** A line holding just "1", "2" or "3" answers the resolution prompt at once. */
  lemma BareAnswer(answer: string, rest: seq<string>)
    requires answer == "1" || answer == "2" || answer == "3"
    ensures Prompted(Resolution, [answer] + rest) == Reply(answer, rest)
  {
    TrimUntouched(answer);
    assert ([answer] + rest)[1..] == rest;
  }

  /** A year typed at the prompt is four ASCII bytes: from -999 to 9999. */
  lemma AcceptedYearRange(token: string)
    requires Accepts(Year, token)
    ensures -999 <= ParseI32(token).value <= 9999
  {
    assert |token| == 4;
    if token[0] == '-' || token[0] == '+' {
      DigitsValueBound(token[1..]);
    } else {
      DigitsValueBound(token);
    }
  }

  /** A month typed at the prompt is two ASCII bytes: from 0 to 99. */
  lemma AcceptedMonthRange(token: string)
    requires Accepts(Month, token)
    ensures 0 <= ParseU32(token).value <= 99
  {
    assert |token| == 2;
    if token[0] == '+' {
      DigitsValueBound(token[1..]);
    } else {
      DigitsValueBound(token);
    }
  }

  /** At the end of the input every further read gives "", which no check accepts. */
  lemma EmptyNeverAccepted(q: Question)
    ensures !Accepts(q, "")
  {
  }

  /** A sign takes up one of the counted bytes: "-123" is a year, "+1" a month, "-1" not a month. */
  lemma SignedAnswers()
    ensures Accepts(Year, "-123") && ParseI32("-123") == Some(-123)
    ensures Accepts(Month, "+1") && ParseU32("+1") == Some(1)
    ensures !Accepts(Month, "-1")
  {
    var y := "-123";
    assert forall k :: 0 <= k < |y| ==> y[k] as int < 0x80;
    assert y[1..] == "123" && "123"[..2] == "12" && "12"[..1] == "1" && "1"[..0] == [];
    var m := "+1";
    assert forall k :: 0 <= k < |m| ==> m[k] as int < 0x80;
    assert m[1..] == "1" && "1"[..0] == [];
  }

  /** Any two digits are a month to the prompt, "00" and "13" included. */
  lemma AnyTwoDigitsAreAMonth(token: string)
    requires |token| == 2 && AllDigits(token)
    ensures Accepts(Month, token) && ParseU32(token) == Some(DigitsValue(token))
  {
    assert forall k :: 0 <= k < |token| ==> token[k] as int < 0x80;
    DigitsValueBound(token);
  }

  /** Extra spaces and the line end around an answer do not matter. */
  lemma AnswerIsTrimmed()
    ensures FirstAccepted(Resolution, ["x", " 2 \n"]) == Some(Answer("2", 2))
  {
    assert Trim(" 2 \n") == "2";
    assert !Accepts(Resolution, Trim("x"));
  }
}
