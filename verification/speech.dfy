// The utterance filter applied to every transcription before it reaches
// the chat model: known noise transcriptions and very short utterances
// are rejected.

module Speech {
  import opened Wrappers
  import opened Text

  /** Fewer whitespace-separated words than this is treated as noise. */
  const MinWords: nat := 2

  /** Transcriptions the speech recogniser is known to produce from noise. */
  const NoiseTranscriptions: set<string> := {
    "", ".", "..", "...", "hm", "hmm", "hmmm", "mm", "mmm", "mhm",
    "uh", "um", "ah", "eh", "oh", "öh", "äh", "ja", "nej", "jo",
    "tack", "ok", "okay", "hej", "du", "jag", "och", "att", "det",
    "Tack för att du tittade.", "Tack för att du tittade",
    "Tack för att ni tittade.", "Tack för att ni tittade",
    "Prenumerera på kanalen.", "Prenumerera på kanalen",
    "Glöm inte att prenumerera", "Gilla och prenumerera",
    "Musik", "♪", "♫", "[Musik]", "[musik]"
  }

  /** The noise set as it is compared: every entry lower-cased. */
  function NoiseSet(): set<string> {
    set n | n in NoiseTranscriptions :: LowerStr(n)
  }

  predicate IsNoise(cleaned: string) {
    LowerStr(cleaned) in NoiseSet()
  }

  /** Why an utterance was accepted or rejected. */
  datatype Verdict = Valid | Empty | NoisePattern | TooShort(words: nat)

  /**
   * The filter. `None` stands for a failed transcription; the text is
   * stripped before the noise comparison and the word count.
   */
  function IsValidSpeech(text: Option<string>): (r: Verdict)
    ensures r == Empty <==> text.None? || text.value == []
    ensures r == NoisePattern <==> text.Some? && text.value != [] && IsNoise(Strip(text.value))
    ensures r.TooShort? <==>
      && text.Some? && text.value != [] && !IsNoise(Strip(text.value))
      && |Words(text.value)| < MinWords
    ensures r.TooShort? ==> r.words == |Words(text.value)|
    ensures r == Valid <==>
      && text.Some? && !IsNoise(Strip(text.value))
      && |Words(text.value)| >= MinWords
    ensures text.Some? && text.value != [] && AllSpace(text.value) ==> r == NoisePattern
  {
    match text
    case None => Empty
    case Some(t) =>
      if t == [] then Empty
      else
        var cleaned := Strip(t);
        if IsNoise(cleaned) then NoisePattern
        else
          var words := Words(cleaned);
          WordsOfStrip(t);
          if |words| < MinWords then TooShort(|words|) else Valid
  }

  /** The noise comparison ignores case: an upper-cased text is noise exactly when the text is. */
  lemma NoiseIgnoresCase(s: string)
    ensures IsNoise(UpperStr(s)) <==> IsNoise(s)
  {
    assert LowerStr(UpperStr(s)) == LowerStr(s);
  }

  // ---------------------------------------------------------------------
  // Word counting ignores surrounding whitespace
  // ---------------------------------------------------------------------

  /** `s.strip().split() == s.split()`. */
  lemma WordsOfStrip(s: string)
    ensures Words(Strip(s)) == Words(s)
  {
    var l := TrimLeft(s, Whitespace);
    assert Strip(s) == TrimRight(l, Whitespace);
    WordsOfTrimLeft(s);
    WordsOfTrimRight(l);
  }

  lemma WordsOfTrimLeft(s: string)
    ensures Words(TrimLeft(s, Whitespace)) == Words(s)
  {
    var l := TrimLeft(s, Whitespace);
    var a := s[..|s| - |l|];
    assert AllSpace(a) && s == a + l;
    WordsSpacePrefix(a, l);
  }

  lemma WordsOfTrimRight(l: string)
    ensures Words(TrimRight(l, Whitespace)) == Words(l)
  {
    var r := TrimRight(l, Whitespace);
    var b := l[|r|..];
    assert AllSpace(b) && l == r + b;
    WordsSpaceSuffix(r, b);
  }

  lemma {:induction false} WordsSpacePrefix(a: string, s: string)
    requires AllSpace(a)
    ensures Words(a + s) == Words(s)
    decreases |a|
  {
    if a != [] {
      assert (a + s)[0] == a[0] && (a + s)[1..] == a[1..] + s;
      WordsSpacePrefix(a[1..], s);
    } else {
      assert a + s == s;
    }
  }

  lemma {:induction false} WordsOfSpace(b: string)
    requires AllSpace(b)
    ensures Words(b) == []
    decreases |b|
  {
    if b != [] {
      WordsOfSpace(b[1..]);
    }
  }

  lemma {:induction false} WordsSpaceSuffix(s: string, b: string)
    requires AllSpace(b)
    ensures Words(s + b) == Words(s)
    decreases |s|
  {
    if s == [] {
      assert s + b == b;
      WordsOfSpace(b);
    } else if IsSpace(s[0]) {
      assert (s + b)[1..] == s[1..] + b;
      WordsSpaceSuffix(s[1..], b);
    } else {
      var w := TakeWord(s);
      TakeWordSpaceSuffix(s, b);
      assert (s + b)[|w|..] == s[|w|..] + b;
      WordsSpaceSuffix(s[|w|..], b);
    }
  }

  /** A word ends at the end of the text when only whitespace follows. */
  lemma {:induction false} TakeWordSpaceSuffix(s: string, b: string)
    requires AllSpace(b)
    ensures TakeWord(s + b) == TakeWord(s)
    decreases |s|
  {
    if s == [] {
      assert s + b == b;
    } else if !IsSpace(s[0]) {
      assert (s + b)[1..] == s[1..] + b;
      TakeWordSpaceSuffix(s[1..], b);
    }
  }
}
