/**
 * The console prompts `Client.getField` and `Client.getIntegerField`,
 * with standard input abstracted as the finite sequence of what the
 * successive calls of `readLine` return: a line, or null (None) when the
 * reader met the end of the input, as after Ctrl-D at a console, where a
 * later prompt's fresh reader can still read further lines. After the last
 * entry the stream stays at its end.
 */
module Prompt {
  import opened Wrappers
  import opened Config

  /** Drops leading characters up to U+0020, as the first half of `String.trim`. */
  function TrimStart(s: string): (r: string)
    ensures |r| <= |s| && r == s[|s| - |r|..]
    ensures forall k :: 0 <= k < |s| - |r| ==> s[k] <= ' '
    ensures r != [] ==> r[0] > ' '
    decreases |s|
  {
    if s != [] && s[0] <= ' ' then TrimStart(s[1..]) else s
  }

  /** Drops trailing characters up to U+0020, as the second half of `String.trim`. */
  function TrimEnd(s: string): (r: string)
    ensures |r| <= |s| && r == s[..|r|]
    ensures forall k :: |r| <= k < |s| ==> s[k] <= ' '
    ensures r != [] ==> r[|r| - 1] > ' '
    decreases |s|
  {
    if s != [] && s[|s| - 1] <= ' ' then TrimEnd(s[..|s| - 1]) else s
  }

  function Trim(s: string): string {
    TrimEnd(TrimStart(s))
  }

  /**
   * A text every character of which is a space or a control character (up
   * to U+0020), which is what `value.trim().isEmpty()` tests, as
   * BlankIffTrimmedEmpty shows.
   */
  predicate Blank(line: string) {
    forall k :: 0 <= k < |line| ==> line[k] <= ' '
  }

  /** The trim test of `getField` agrees with Blank. */
  lemma BlankIffTrimmedEmpty(line: string)
    ensures Trim(line) == [] <==> Blank(line)
  {
    var t := TrimStart(line);
    if Trim(line) != [] && t != [] {
      assert line[|line| - |t|] == t[0];
    }
  }

  /** What one call of `readLine` returns: a line, or None for null. */
  type Line = Option<string>

  /** A read `getField` asks again after: null, or a blank line. */
  predicate Unanswered(line: Line) {
    line.None? || Blank(line.value)
  }

  predicate AllUnanswered(lines: seq<Line>) {
    forall k :: 0 <= k < |lines| ==> Unanswered(lines[k])
  }

  /**
   * The outcome of a prompt: the answer and how many reads were consumed
   * to produce it, or `Exhausted` when the input ended while the prompt was
   * still asking. In the source that case never returns: at the end of the
   * stream `readLine` keeps yielding null and the prompt keeps recursing.
   */
  datatype Read<T> = Answer(value: T, consumed: nat) | Exhausted

  function Shift<T>(r: Read<T>, n: nat): Read<T> {
    match r
    case Answer(v, m) => Answer(v, n + m)
    case Exhausted => Exhausted
  }

  lemma ShiftTwice<T>(r: Read<T>, m: nat, n: nat)
    ensures Shift(Shift(r, m), n) == Shift(r, n + m)
  {
  }

  /**
   * `getField`: reads a line; when it is null or blank it prompts again,
   * but the value of that retry is dropped and the first read, null or
   * blank as it may be, is returned. The retries consume reads up to and
   * including the first non-blank line.
   */
  function GetField(input: seq<Line>): (r: Read<Line>)
    ensures r.Answer? ==> 0 < r.consumed <= |input| && r.value == input[0]
    decreases |input|
  {
    if input == [] then Exhausted
    else if !Unanswered(input[0]) then Answer(input[0], 1)
    else
      match GetField(input[1..])
      case Exhausted => Exhausted
      case Answer(_, n) => Answer(input[0], n + 1)
  }

  /** `getField` as a loop over the remaining reads instead of a recursion. */
  method ReadField(input: seq<Line>) returns (r: Read<Line>)
    ensures r == GetField(input)
  {
    if input == [] {
      return Exhausted;
    }
    var first := input[0];
    var pos := 1;
    if Unanswered(first) {
      while pos < |input| && Unanswered(input[pos])
        invariant 1 <= pos <= |input|
        invariant AllUnanswered(input[..pos])
        decreases |input| - pos
      {
        pos := pos + 1;
      }
      if pos == |input| {
        FieldExhaustedIffAllUnanswered(input);
        return Exhausted;
      }
      pos := pos + 1;
    }
    r := Answer(first, pos);
    FieldEndsAtFirstAnswered(input, pos);
  }

  /** The reads `getField` consumes are null or blank up to a last, non-blank line. */
  lemma {:induction false} FieldConsumesThroughAnswered(input: seq<Line>)
    ensures var r := GetField(input);
      r.Answer? ==> AllUnanswered(input[..r.consumed - 1]) && !Unanswered(input[r.consumed - 1])
    decreases |input|
  {
    if input != [] && Unanswered(input[0]) {
      FieldConsumesThroughAnswered(input[1..]);
      var r := GetField(input[1..]);
      if r.Answer? {
        assert input[..r.consumed] == [input[0]] + input[1..][..r.consumed - 1];
      }
    }
  }

  /** `getField` finds no answer exactly when every remaining read is null or blank. */
  lemma {:induction false} FieldExhaustedIffAllUnanswered(input: seq<Line>)
    ensures GetField(input).Exhausted? <==> AllUnanswered(input)
    decreases |input|
  {
    if input != [] && Unanswered(input[0]) {
      FieldExhaustedIffAllUnanswered(input[1..]);
      assert AllUnanswered(input) <==> AllUnanswered(input[1..]) by {
        assert forall k :: 1 <= k < |input| ==> input[k] == input[1..][k - 1];
      }
    }
  }

  /** The reads `getField` consumes end with the first non-blank line. */
  lemma FieldEndsAtFirstAnswered(input: seq<Line>, n: nat)
    requires 0 < n <= |input| && !Unanswered(input[n - 1])
    requires AllUnanswered(input[..n - 1])
    ensures GetField(input) == Answer(input[0], n)
  {
    FieldExhaustedIffAllUnanswered(input);
    FieldConsumesThroughAnswered(input);
    assert !AllUnanswered(input) by { assert !Unanswered(input[n - 1]); }
  }

  /**
   * The number `getIntegerField` takes from an answer: 0 when
   * `Integer.parseInt` throws, which it does for null too.
   */
  function ParsedValue(parse: string -> Option<int32>, line: Line): int32 {
    match line
    case None => 0
    case Some(text) =>
      match parse(text)
      case Some(n) => n
      case None => 0
  }

  /**
   * `getIntegerField`: takes the answer of `getField` and prompts again,
   * from the read after those consumed, until an answer parses to a number
   * greater than zero.
   */
  function GetIntegerField(parse: string -> Option<int32>, input: seq<Line>): (r: Read<int32>)
    ensures r.Answer? ==> r.value > 0 && 0 < r.consumed <= |input|
    decreases |input|
  {
    match GetField(input)
    case Exhausted => Exhausted
    case Answer(line, n) =>
      var value := ParsedValue(parse, line);
      if value <= 0 then Shift(GetIntegerField(parse, input[n..]), n)
      else Answer(value, n)
  }

  /** `getIntegerField` as a loop over the remaining reads instead of a recursion. */
  method ReadIntegerField(parse: string -> Option<int32>, input: seq<Line>) returns (r: Read<int32>)
    ensures r == GetIntegerField(parse, input)
  {
    var pos: nat := 0;
    assert input[pos..] == input;
    while true
      invariant 0 <= pos <= |input|
      invariant GetIntegerField(parse, input) == Shift(GetIntegerField(parse, input[pos..]), pos)
      decreases |input| - pos
    {
      var field := ReadField(input[pos..]);
      IntegerFieldStep(parse, input, pos, field);
      if field.Exhausted? {
        return Exhausted;
      }
      var value := ParsedValue(parse, field.value);
      if value > 0 {
        return Answer(value, pos + field.consumed);
      }
      var next := pos + field.consumed;
      assert GetIntegerField(parse, input) == Shift(GetIntegerField(parse, input[next..]), next);
      pos := next;
    }
  }

  /** One step of ReadIntegerField's loop, unfolded from GetIntegerField at an offset. */
  lemma IntegerFieldStep(parse: string -> Option<int32>, input: seq<Line>, pos: nat, field: Read<Line>)
    requires pos <= |input| && field == GetField(input[pos..])
    requires GetIntegerField(parse, input) == Shift(GetIntegerField(parse, input[pos..]), pos)
    ensures field.Exhausted? ==> GetIntegerField(parse, input) == Exhausted
    ensures field.Answer? && ParsedValue(parse, field.value) > 0 ==>
      GetIntegerField(parse, input) == Answer(ParsedValue(parse, field.value), pos + field.consumed)
    ensures field.Answer? && ParsedValue(parse, field.value) <= 0 ==>
      && pos + field.consumed <= |input|
      && GetIntegerField(parse, input) == Shift(GetIntegerField(parse, input[pos + field.consumed..]), pos + field.consumed)
  {
    var rest := input[pos..];
    if field.Answer? && ParsedValue(parse, field.value) <= 0 {
      assert rest[field.consumed..] == input[pos + field.consumed..];
      ShiftTwice(GetIntegerField(parse, input[pos + field.consumed..]), field.consumed, pos);
    }
  }

  /** The successive answers of `getField` when it is asked again and again. */
  function Answers(input: seq<Line>): seq<Line>
    decreases |input|
  {
    match GetField(input)
    case Exhausted => []
    case Answer(line, n) => [line] + Answers(input[n..])
  }

  /** The position of the first answer that parses to a positive number, or the number of answers when none does. */
  function FirstPositive(parse: string -> Option<int32>, answers: seq<Line>): (k: nat)
    ensures k <= |answers|
  {
    if answers == [] then 0
    else if ParsedValue(parse, answers[0]) > 0 then 0
    else 1 + FirstPositive(parse, answers[1..])
  }

  /** FirstPositive finds the first answer that parses to a positive number. */
  lemma {:induction false} FirstPositiveIsFirst(parse: string -> Option<int32>, answers: seq<Line>)
    ensures var k := FirstPositive(parse, answers);
      && (forall j :: 0 <= j < k ==> ParsedValue(parse, answers[j]) <= 0)
      && (k < |answers| ==> ParsedValue(parse, answers[k]) > 0)
  {
    if answers != [] && ParsedValue(parse, answers[0]) <= 0 {
      FirstPositiveIsFirst(parse, answers[1..]);
      var k := FirstPositive(parse, answers);
      assert forall j :: 1 <= j < |answers| ==> answers[j] == answers[1..][j - 1];
    }
  }

  /**
   * `getIntegerField` yields the first answer that parses to a positive
   * number, and finds none exactly when no answer does.
   */
  lemma {:induction false} IntegerFieldIsFirstPositiveAnswer(parse: string -> Option<int32>, input: seq<Line>)
    ensures var r := GetIntegerField(parse, input);
      var a := Answers(input);
      var k := FirstPositive(parse, a);
      && (r.Exhausted? <==> k == |a|)
      && (r.Answer? ==> k < |a| && r.value == ParsedValue(parse, a[k]))
    decreases |input|
  {
    var r := GetIntegerField(parse, input);
    var a := Answers(input);
    match GetField(input)
    case Exhausted =>
      assert a == [] && r == Exhausted;
    case Answer(line, n) =>
      var rest := input[n..];
      assert a == [line] + Answers(rest);
      if ParsedValue(parse, line) > 0 {
        assert r == Answer(ParsedValue(parse, line), n);
        assert FirstPositive(parse, a) == 0;
      } else {
        var b := Answers(rest);
        assert r == Shift(GetIntegerField(parse, rest), n);
        assert a[1..] == b;
        assert FirstPositive(parse, a) == 1 + FirstPositive(parse, b);
        IntegerFieldIsFirstPositiveAnswer(parse, rest);
        var k := FirstPositive(parse, b);
        if k < |b| {
          assert a[k + 1] == b[k];
        }
      }
  }

  /**
   * A blank first answer loses the line typed after it: after "" and "42"
   * the dropped retry of `getField` has consumed "42", so the number is
   * taken from the next line.
   */
  lemma BlankAnswerLosesNextLine(parse: string -> Option<int32>)
    requires parse("") == None && parse("7") == Some(7)
    ensures GetIntegerField(parse, [Some(""), Some("42"), Some("7")]) == Answer(7, 3)
  {
    var input := [Some(""), Some("42"), Some("7")];
    assert Blank("");
    assert "42"[0] > ' ' && "7"[0] > ' ';
    assert input[1..] == [Some("42"), Some("7")] && input[2..] == [Some("7")];
    assert GetField(input) == Answer(Some(""), 2);
    assert GetField(input[2..]) == Answer(Some("7"), 1);
  }

  /**
   * A null read followed by a line makes `getField` return null: the line
   * typed after the end of input is consumed by the dropped retry.
   */
  lemma NullReadIsReturned(line: string)
    requires !Blank(line)
    ensures GetField([None, Some(line)]) == Answer(None, 2)
  {
    assert [None, Some(line)][1..] == [Some(line)];
  }
}
