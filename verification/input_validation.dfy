/** The guess validator of the console game (`validar_numero` in
    `utils.py`): parse the player's text as an integer, then check it against
    the inclusive range `[low, high]`.  The Python triple
    `(valid, number or None, message)` becomes the `Verdict` datatype. */
module InputValidation {
  import opened Wrappers
  import opened NumberText

  /** `(valid, number, message)`: `number` is `None` exactly when `valid` is false. */
  datatype Verdict = Verdict(valid: bool, number: Option<int>, message: string)

  const NotANumberMessage: string := "Por favor, ingresa un número válido."

  const RangePrefix: string := "El número debe estar entre "

  /** Where the four pieces of `a + b + sep + c + "."` can be found again. */
  lemma Pieces(a: string, b: string, sep: string, c: string)
    ensures var m := a + b + sep + c + ".";
      && |m| == |a| + |b| + |sep| + |c| + 1
      && m[..|a|] == a
      && m[|a|..|a| + |b|] == b
      && m[|a| + |b|..|a| + |b| + |sep|] == sep
      && m[|a| + |b| + |sep|..|m| - 1] == c
      && m[|m| - 1] == '.'
  {
  }

  /** The message for a number outside `[low, high]`: after the fixed prefix,
      the two bounds can be read back from it, joined by `" y "` and followed
      by a full stop. */
  function RangeMessage(low: int, high: int): (m: string)
    ensures |m| > |RangePrefix| && m[..|RangePrefix|] == RangePrefix && m[|m| - 1] == '.'
    ensures var lowEnd := |RangePrefix| + |IntToString(low)|;
      && lowEnd + 3 < |m|
      && ParseInt(m[|RangePrefix|..lowEnd]) == Some(low)
      && m[lowEnd..lowEnd + 3] == " y "
      && ParseInt(m[lowEnd + 3..|m| - 1]) == Some(high)
      && |m| == lowEnd + 3 + |IntToString(high)| + 1
  {
    ParseIntRoundTrip(low);
    ParseIntRoundTrip(high);
    Pieces(RangePrefix, IntToString(low), " y ", IntToString(high));
    RangePrefix + IntToString(low) + " y " + IntToString(high) + "."
  }

  /** Valid exactly when the text parses and the number lies in `[low, high]`;
      the three result shapes are pinned down by the later clauses. */
  function ValidateNumber(input: string, low: int := 1, high: int := 100): (r: Verdict)
    ensures r.valid <==> ParseInt(input).Some? && low <= ParseInt(input).value <= high
    ensures r.valid ==> r.number.Some? && low <= r.number.value <= high
    ensures r.valid ==> r.number == ParseInt(input) && r.message == ""
    ensures !r.valid ==> r.number == None && r.message != ""
    ensures ParseInt(input).None? ==> r.message == NotANumberMessage
    ensures ParseInt(input).Some? && !r.valid ==> r.message == RangeMessage(low, high)
  {
    match ParseInt(input)
    case None => Verdict(false, None, NotANumberMessage)
    case Some(n) =>
      if n < low || n > high then Verdict(false, None, RangeMessage(low, high))
      else Verdict(true, Some(n), "")
  }

  /** A number written out as `str(n)` is accepted with its own value when it
      is in range and refused with the range message otherwise. */
  lemma ValidateRendered(n: int, low: int, high: int)
    ensures low <= n <= high ==> ValidateNumber(IntToString(n), low, high) == Verdict(true, Some(n), "")
    ensures !(low <= n <= high) ==> ValidateNumber(IntToString(n), low, high) == Verdict(false, None, RangeMessage(low, high))
  {
    ParseIntRoundTrip(n);
  }

  /** The two examples of the validator's documentation. */
  lemma DocumentedExamples()
    ensures ValidateNumber("50", 1, 100) == Verdict(true, Some(50), "")
    ensures ValidateNumber("abc", 1, 100) == Verdict(false, None, NotANumberMessage)
  {
    ParseIntRoundTrip(50);
    assert IntToString(50) == "50";
    assert !IsDigit("abc"[0]);
  }
}
