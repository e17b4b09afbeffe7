/** The acceptance rules of the program's two input helpers, one attempt at
    a time: `ReadInt` takes a number only inside its range and `ReadYesNo`
    takes only y/yes/n/no, ignoring case and surrounding white space. The
    helpers' retry loops just repeat an attempt until it is accepted. */
module Input {
  import opened Wrappers
  import opened Text

  /** `Console.ReadLine() ?? ""`: the end of input reads as an empty line. */
  function LineOrEmpty(line: Option<string>): string {
    line.GetOr("")
  }

  predicate InRange(v: int, min: int, max: int) {
    min <= v <= max
  }

  /** One attempt of `ReadInt(prompt, min, max)` on the outcome of
      `int.TryParse` (`None` when the line is not a number): a number is
      returned only when it lies in [min, max], and then unchanged. */
  function AcceptInt(parsed: Option<int>, min: int, max: int): (r: Option<int>)
    ensures r.Some? ==> InRange(r.value, min, max) && r == parsed
    ensures parsed.Some? && InRange(parsed.value, min, max) ==> r == parsed
  {
    if parsed.Some? && min <= parsed.value && parsed.value <= max then parsed else None
  }

  /** The form `ReadYesNo` compares: trimmed and lower-cased. */
  function NormalizeAnswer(line: string): string {
    ToLower(Trim(line))
  }

  /** One attempt of `ReadYesNo`: `Some(true)` for yes, `Some(false)` for no,
      `None` when the answer is rejected and the question asked again. */
  function YesNo(line: string): (r: Option<bool>)
    ensures r == Some(true) <==> NormalizeAnswer(line) in {"y", "yes"}
    ensures r == Some(false) <==> NormalizeAnswer(line) in {"n", "no"}
  {
    var s := NormalizeAnswer(line);
    if s == "y" || s == "yes" then Some(true)
    else if s == "n" || s == "no" then Some(false)
    else None
  }

  /** `line` is, up to surrounding white space, one of `words` in any mix of
      upper and lower case. */
  ghost predicate SaysOneOf(line: string, words: set<string>) {
    exists i, j :: 0 <= i <= j <= |line| && Split(line, i, j) && ToLower(line[i..j]) in words
  }

  /** The rule stated on the raw line: yes is accepted exactly when the line
      is "y" or "yes" in any case with any white space around it, and no
      likewise; since the two word sets are disjoint, no line is both. */
  lemma YesNoMeaning(line: string)
    ensures YesNo(line) == Some(true) <==> SaysOneOf(line, {"y", "yes"})
    ensures YesNo(line) == Some(false) <==> SaysOneOf(line, {"n", "no"})
  {
    var i, j := TrimSplit(line);
    forall i', j' | 0 <= i' <= j' <= |line| && Split(line, i', j')
      ensures line[i'..j'] == Trim(line)
    {
      SliceThree(line, i', j');
      TrimUnique(line[..i'], line[i'..j'], line[j'..]);
    }
  }

  /** White space around the answer does not matter. */
  lemma YesNoIgnoresPadding(a: string, s: string, b: string)
    requires AllWhiteSpace(a) && AllWhiteSpace(b)
    ensures YesNo(a + s + b) == YesNo(s)
  {
    TrimIgnoresPadding(a, s, b);
  }

  /** Letter case in the answer does not matter. */
  lemma YesNoIgnoresCase(s: string)
    ensures YesNo(ToLower(s)) == YesNo(s)
  {
    TrimToLowerCommute(s);
    ToLowerIdempotent(Trim(s));
  }

  /** An answer with no surrounding white space is compared as it is. */
  lemma TrimmedAnswer(s: string)
    requires IsTrimmed(s)
    ensures NormalizeAnswer(s) == ToLower(s)
  {
    TrimUnique([], s, []);
    assert [] + s + [] == s;
  }

  lemma YesNoExampleYes()
    ensures YesNo(" YES\t") == Some(true)
  {
    assert TrimStart(" YES\t") == TrimStart("YES\t") == "YES\t";
    assert TrimEnd("YES\t") == TrimEnd("YES") == "YES";
    assert ToLower("YES") == "yes";
  }

  lemma YesNoExampleNo()
    ensures YesNo("No") == Some(false)
  {
    TrimmedAnswer("No");
    assert ToLower("No") == "no";
  }

  lemma YesNoExampleRejected()
    ensures YesNo("") == None
    ensures YesNo("yeah") == None
  {
    TrimmedAnswer("");
    TrimmedAnswer("yeah");
    assert |ToLower("yeah")| == 4;
  }
}
