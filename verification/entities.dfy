/**
 * Entity detection and MEMORY-line parsing. The memory store and the LLM
 * response parser each carry a copy of these rules; the copies differ only
 * in their word lists, which are the two `Vocabulary` constants below.
 */
module Entities {
  import opened Wrappers
  import opened Text

  /** An (entity, observation) pair, as the source's tuples. */
  datatype Tagged = Tagged(entity: string, observation: string)

  /** The tag aliases and environment keywords one copy of the rules uses. */
  datatype Vocabulary = Vocabulary(envTags: seq<string>, selfTags: seq<string>, envKeywords: seq<string>)

  /** The lists of `parse_memory_line` and `detect_entity` in the memory store. */
  const StoreVocabulary := Vocabulary(
    ["env", "environment", "rummet", "rum"],
    ["self", "jag", "själv", "mig"],
    ["hittade", "såg", "rummet", "under", "bakom", "golvet", "bordet"])

  /** The lists of `parse_response` and `detect_entity_from_memory` in the voice assistant. */
  const ResponseVocabulary := Vocabulary(
    ["env", "environment", "rummet"],
    ["self", "jag", "själv"],
    ["hittade", "såg", "rummet", "under", "bakom"])

  /** The four entity names the rules produce besides capitalised free-form tags. */
  const Leon := "Leon"
  const Environment := "environment"
  const Self := "self"
  const General := "general"

  /** The lower-cased, stripped text the detection rules inspect. */
  function Folded(text: string): string {
    Strip(LowerStr(text))
  }

  predicate MentionsLeon(text: string) {
    StartsWith(Folded(text), "leon")
  }

  predicate MentionsSelf(text: string) {
    !MentionsLeon(text) && StartsWith(Folded(text), "jag ")
  }

  predicate MentionsPlace(text: string, v: Vocabulary) {
    !MentionsLeon(text) && !MentionsSelf(text) && ContainsAny(Folded(text), v.envKeywords)
  }

  /**
   * Auto-detects the entity of an untagged memory text. A text naming Leon
   * loses its "leon's "/"leons "/"leon " prefix, one starting with "jag "
   * loses those four characters; both slice the ORIGINAL text by the
   * prefix length.
   */
  function DetectEntity(text: string, v: Vocabulary): Tagged {
    var lower := Folded(text);
    Tagged(EntityFor(lower, v), ObservationFor(text, lower))
  }

  /** The entity the rules pick for a folded text. */
  function EntityFor(lower: string, v: Vocabulary): (e: string)
    ensures |e| >= 4
  {
    if StartsWith(lower, "leon") then Leon
    else if StartsWith(lower, "jag ") then Self
    else if ContainsAny(lower, v.envKeywords) then Environment
    else General
  }

  /** The observation kept: the original text, sliced by the length of the prefix matched on its folded form. */
  function ObservationFor(text: string, lower: string): string
    requires |lower| <= |text|
  {
    if StartsWith(lower, "leon") then
      var p := LeonPrefix(lower);
      if p == "" then text else Strip(text[|p|..])
    else if StartsWith(lower, "jag ") then Strip(text[4..])
    else text
  }

  /**
   * The first of "leon's ", "leons ", "leon " that `lower` starts with, or
   * "" for a text that starts with "leon" but none of these.
   */
  function LeonPrefix(lower: string): (p: string)
    ensures p == "" || StartsWith(lower, p)
  {
    if StartsWith(lower, "leon's ") then "leon's "
    else if StartsWith(lower, "leons ") then "leons "
    else if StartsWith(lower, "leon ") then "leon "
    else ""
  }

  /** The four entity names differ already in their first letter. */
  lemma EntityNamesDistinct()
    ensures Leon[0] == 'L' && Self[0] == 's' && Environment[0] == 'e' && General[0] == 'g'
    ensures Leon != Self && Leon != Environment && Leon != General
    ensures Self != Environment && Self != General && Environment != General
  {
  }

  /** `DetectEntity` applies both rules to the same folded text. */
  lemma DetectEntityParts(text: string, v: Vocabulary)
    ensures |Folded(text)| <= |text|
    ensures DetectEntity(text, v) == Tagged(EntityFor(Folded(text), v), ObservationFor(text, Folded(text)))
  {
  }

  /** The detected entity is always a name. */
  lemma DetectEntityNamed(text: string, v: Vocabulary)
    ensures DetectEntity(text, v).entity != []
  {
    DetectEntityParts(text, v);
  }

  /** Each text gets exactly one of the four entities, by the first rule that applies. */
  lemma DetectEntityClassifies(text: string, v: Vocabulary)
    ensures var r := DetectEntity(text, v);
      && (r.entity == Leon <==> MentionsLeon(text))
      && (r.entity == Self <==> MentionsSelf(text))
      && (r.entity == Environment <==> MentionsPlace(text, v))
      && (r.entity == General <==> !MentionsLeon(text) && !MentionsSelf(text) && !MentionsPlace(text, v))
      && (r.entity == Environment || r.entity == General ==> r.observation == text)
  {
    DetectEntityParts(text, v);
    EntityNamesDistinct();
  }

  lemma FoldedStripped(text: string)
    requires IsStripped(text)
    ensures Folded(text) == LowerStr(text)
  {
    LowerKeepsSpace(text);
    StripStripped(LowerStr(text));
  }

  /** On the stripped texts both callers pass, every detected observation is non-empty and stripped. */
  lemma DetectEntityOnStripped(text: string, v: Vocabulary)
    requires IsStripped(text) && text != []
    ensures DetectEntity(text, v).observation != []
    ensures IsStripped(DetectEntity(text, v).observation)
  {
    DetectEntityParts(text, v);
    FoldedStripped(text);
    var lower := LowerStr(text);
    if StartsWith(lower, "leon") {
      LeonObservation(text);
    } else if StartsWith(lower, "jag ") {
      SelfObservation(text);
    }
  }

  /** `DetectEntity` on a stripped non-empty text, with what it then guarantees. */
  function DetectStripped(text: string, v: Vocabulary): (t: Tagged)
    requires IsStripped(text) && text != []
    ensures t == DetectEntity(text, v)
    ensures t.entity != [] && t.observation != [] && IsStripped(t.observation)
  {
    DetectEntityOnStripped(text, v);
    DetectEntityNamed(text, v);
    DetectEntity(text, v)
  }

  /**
   * The Leon rule on a stripped text: the "leon's ", "leons " or "leon "
   * prefix, in any case, is removed and something is left; a text that
   * only starts with "leon" is kept whole.
   */
  lemma LeonObservation(text: string)
    requires IsStripped(text) && text != []
    requires StartsWith(LowerStr(text), "leon")
    ensures var p := LeonPrefix(LowerStr(text));
      var obs := if p == "" then text else Strip(text[|p|..]);
      && ObservationFor(text, LowerStr(text)) == obs
      && LowerStr(text[..|p|]) == p && obs != [] && IsStripped(obs)
  {
    var p := LeonPrefix(LowerStr(text));
    if p != "" {
      PrefixLeavesText(text, p);
    }
  }

  /** The self rule on a stripped text: "jag " in any case is removed and something is left. */
  lemma SelfObservation(text: string)
    requires IsStripped(text) && text != []
    requires !StartsWith(LowerStr(text), "leon") && StartsWith(LowerStr(text), "jag ")
    ensures ObservationFor(text, LowerStr(text)) == Strip(text[4..])
    ensures LowerStr(text[..4]) == "jag " && Strip(text[4..]) != []
  {
    PrefixLeavesText(text, "jag ");
  }

  /** A stripped text that starts with a prefix ending in a space continues past it. */
  lemma PrefixLeavesText(text: string, p: string)
    requires IsStripped(text) && p != [] && IsSpace(p[|p| - 1])
    requires StartsWith(LowerStr(text), p)
    ensures |p| < |text| && LowerStr(text[..|p|]) == p
    ensures Strip(text[|p|..]) != []
  {
    var lower := LowerStr(text);
    assert LowerStr(text[..|p|]) == lower[..|p|];
    assert IsSpace(lower[|p| - 1]);
    LowerKeepsSpace(text);
    assert IsSpace(text[|p| - 1]);
    var rest := text[|p|..];
    assert rest[|rest| - 1] == text[|text| - 1];
  }

  // ---------------------------------------------------------------------
  // MEMORY lines
  // ---------------------------------------------------------------------

  /** A character matched by the regex class `\w` (letters, digits, `_`), up to U+00FF. */
  predicate IsWordChar(c: char) {
    || 'a' <= c <= 'z' || 'A' <= c <= 'Z' || '0' <= c <= '9' || c == '_'
    || c == '\U{AA}' || c == '\U{B2}' || c == '\U{B3}' || c == '\U{B5}' || c == '\U{B9}'
    || c == '\U{BA}' || c == '\U{BC}' || c == '\U{BD}' || c == '\U{BE}'
    || ('\U{C0}' <= c <= '\U{FF}' && c != '\U{D7}' && c != '\U{F7}')
  }

  /** The longest prefix of word characters: what `(\w+)` captures. */
  function TakeWordChars(s: string): (r: string)
    ensures |r| <= |s| && r == s[..|r|]
    ensures forall i :: 0 <= i < |r| ==> IsWordChar(r[i])
    ensures |r| < |s| ==> !IsWordChar(s[|r|])
    decreases |s|
  {
    if |s| == 0 || !IsWordChar(s[0]) then [] else [s[0]] + TakeWordChars(s[1..])
  }

  /** The part of `s` before its first `c`: what `.+` captures, since `.` stops at a newline. */
  function TakeUntil(s: string, c: char): (r: string)
    ensures c !in r && StartsWith(s, r)
    ensures s != [] && s[0] != c ==> r != [] && r[0] == s[0]
  {
    match IndexOf(s, c)
    case None => s
    case Some(i) => s[..i]
  }

  /**
   * The groups of `re.match(r'MEMORY\[(\w+)\]:\s*(.+)', line, re.IGNORECASE)`
   * on a stripped line. Because the line cannot end in whitespace, `\s*`
   * takes all the whitespace after the colon and `.+` needs one more
   * character, which exists exactly when the colon is not the last one.
   */
  function MatchTagged(line: string): (r: Option<(string, string)>)
    requires IsStripped(line)
    ensures r.Some? ==> r.value.0 != [] && r.value.1 != [] && !IsSpace(r.value.1[0])
  {
    if !StartsWithNoCase(line, "MEMORY") || |line| < 7 || line[6] != '[' then None
    else
      assert line[7..] == [] || line[7..][|line[7..]| - 1] == line[|line| - 1];
      MatchBracketed(line[7..])
  }

  /** The part of the match after `MEMORY[`: the tag `(\w+)`, then `]:`, `\s*` and `(.+)`. */
  function MatchBracketed(s: string): (r: Option<(string, string)>)
    requires s == [] || !IsSpace(s[|s| - 1])
    ensures r.Some? ==> r.value.0 != [] && r.value.1 != [] && !IsSpace(r.value.1[0])
  {
    var tag := TakeWordChars(s);
    var after := s[|tag|..];
    assert after == [] || after[|after| - 1] == s[|s| - 1];
    if tag == [] then None
    else
      match MatchTail(after)
      case None => None
      case Some(obs) => Some((tag, obs))
  }

  /**
   * The rest of the pattern after the tag, `\]:\s*(.+)`, on a text that
   * does not end in whitespace: `\s*` takes all whitespace after the colon
   * and `.+` needs one more character, which exists exactly when the colon
   * is not the last one.
   */
  function MatchTail(after: string): (r: Option<string>)
    requires after == [] || !IsSpace(after[|after| - 1])
    ensures r.Some? ==> r.value != [] && !IsSpace(r.value[0]) && '\n' !in r.value
  {
    if !StartsWith(after, "]:") || |after| == 2 then None
    else
      var rest := after[2..];
      assert rest[|rest| - 1] == after[|after| - 1];
      TrimLeftKeepsLast(rest, Whitespace);
      var body := TrimLeft(rest, Whitespace);
      assert body[0] != '\n';
      Some(TakeUntil(body, '\n'))
  }

  /** A tag, lower-cased, mapped to its canonical entity name. */
  function NormalizeTag(tag: string, v: Vocabulary): (r: string)
    ensures tag != [] ==> r != []
    ensures r == Leon <==> LowerStr(tag) == "leon"
    ensures r == Environment <==> LowerStr(tag) != "leon" && LowerStr(tag) in v.envTags
    ensures r == Self <==> LowerStr(tag) != "leon" && LowerStr(tag) !in v.envTags && LowerStr(tag) in v.selfTags
    ensures LowerStr(tag) != "leon" && LowerStr(tag) !in v.envTags && LowerStr(tag) !in v.selfTags
            ==> r == Capitalize(LowerStr(tag))
  {
    var t := LowerStr(tag);
    if t == "leon" then Leon
    else if t in v.envTags then Environment
    else if t in v.selfTags then Self
    else
      CapitalizedLowerIsNotCanonical(tag);
      Capitalize(t)
  }

  /** A capitalised lower-case word is none of "Leon", "environment", "self". */
  lemma CapitalizedLowerIsNotCanonical(tag: string)
    requires LowerStr(tag) != "leon"
    ensures Capitalize(LowerStr(tag)) != Leon
    ensures Capitalize(LowerStr(tag)) != Environment
    ensures Capitalize(LowerStr(tag)) != Self
  {
    var t := LowerStr(tag);
    var c := Capitalize(t);
    if t != [] {
      assert c[0] == Upper(t[0]);
      UpperIsNotLowerAscii(t[0]);
    }
    if |t| == 4 {
      assert LowerStr(t[1..]) == t[1..];
      assert c == [Upper(t[0])] + t[1..];
      assert c[1..] == t[1..];
      assert t[0] == Lower(tag[0]);
      UpperOfLowerIsNotL(tag[0]);
      if t[0] == 'l' {
        assert t == [t[0]] + t[1..];
        assert t[1..] != "eon";
        assert c[1..] != Leon[1..];
      } else {
        assert Upper(t[0]) != 'L';
      }
    }
  }

  lemma UpperIsNotLowerAscii(x: char)
    ensures !('a' <= Upper(x) <= 'z')
  {
  }

  /** `capitalize` turns a lower-cased first letter into 'L' only when it was 'l'. */
  lemma UpperOfLowerIsNotL(x: char)
    ensures Upper(Lower(x)) == 'L' ==> Lower(x) == 'l'
  {
  }

  /**
   * Parses one MEMORY line: the explicit `MEMORY[tag]: observation` form,
   * else `MEMORY...: text` with the entity detected from the text after the
   * first colon; `None` for any other line.
   */
  function ParseMemoryLine(raw: string, v: Vocabulary): (r: Option<Tagged>)
    ensures r.Some? ==> StartsWithNoCase(Strip(raw), "MEMORY")
    ensures r.Some? ==> r.value.entity != [] && r.value.observation != [] && IsStripped(r.value.observation)
    ensures MatchTagged(Strip(raw)).Some? ==>
              var (tag, obs) := MatchTagged(Strip(raw)).value;
              r == Some(Tagged(NormalizeTag(tag, v), Strip(obs)))
    ensures MatchTagged(Strip(raw)).None? && StartsWithNoCase(Strip(raw), "MEMORY") ==>
              r == UntaggedMemory(Strip(raw), v)
  {
    var line := Strip(raw);
    if !StartsWithNoCase(line, "MEMORY") then None
    else
      match MatchTagged(line)
      case Some((tag, obs)) => Some(Tagged(NormalizeTag(tag, v), StripNonBlank(obs)))
      case None => UntaggedMemory(line, v)
  }

  /** Stripping a text that starts with a non-space character leaves something. */
  function StripNonBlank(s: string): (r: string)
    requires s != [] && !IsSpace(s[0])
    ensures r == Strip(s) && r != [] && IsStripped(r)
  {
    assert !AllSpace(s);
    Strip(s)
  }

  /** The `MEMORY: text` fallback: the stripped text after the first colon, if any. */
  function UntaggedMemory(line: string, v: Vocabulary): (r: Option<Tagged>)
    ensures r.Some? ==> r.value.entity != [] && r.value.observation != [] && IsStripped(r.value.observation)
    ensures r.Some? <==> ':' in line && Strip(line[IndexOf(line, ':').value + 1..]) != []
  {
    match IndexOf(line, ':')
    case None => None
    case Some(i) =>
      var text := Strip(line[i + 1..]);
      if text == [] then None
      else
        Some(DetectStripped(text, v))
  }

  /** `(\w+)` captures a run of word characters up to the first other character. */
  lemma {:induction false} TakeWordCharsRun(w: string, rest: string)
    requires forall i :: 0 <= i < |w| ==> IsWordChar(w[i])
    requires rest != [] && !IsWordChar(rest[0])
    ensures TakeWordChars(w + rest) == w
    decreases |w|
  {
    if w == [] {
      assert w + rest == rest;
    } else {
      assert (w + rest)[1..] == w[1..] + rest;
      TakeWordCharsRun(w[1..], rest);
      assert w == [w[0]] + w[1..];
    }
  }

  /** The rendered line is stripped and reads "MEMORY" in upper case. */
  lemma TaggedLineShape(tag: string, obs: string)
    requires obs != [] && IsStripped(obs)
    ensures var line := "MEMORY[" + tag + "]: " + obs;
      IsStripped(line) && StartsWithNoCase(line, "MEMORY") && |line| >= 7 && line[6] == '['
      && line[7..] == tag + ("]: " + obs)
  {
    var line := "MEMORY[" + tag + "]: " + obs;
    assert line[0] == 'M';
    assert line[|line| - 1] == obs[|obs| - 1];
    assert line[..6] == "MEMORY";
    assert UpperStr(line)[..6] == UpperStr(line[..6]);
  }

  /** The regex groups of a rendered line are the tag and the observation. */
  lemma MatchTaggedLine(tag: string, obs: string)
    requires tag != [] && forall i :: 0 <= i < |tag| ==> IsWordChar(tag[i])
    requires obs != [] && IsStripped(obs) && '\n' !in obs
    ensures var line := "MEMORY[" + tag + "]: " + obs;
      IsStripped(line) && MatchTagged(line) == Some((tag, obs))
  {
    TaggedLineShape(tag, obs);
    MatchTaggedOf("MEMORY[" + tag + "]: " + obs, tag, obs);
  }

  /** A stripped line opening with "MEMORY[" and continuing with the tag and "]: " matches with these groups. */
  lemma MatchTaggedOf(line: string, tag: string, obs: string)
    requires tag != [] && forall i :: 0 <= i < |tag| ==> IsWordChar(tag[i])
    requires obs != [] && IsStripped(obs) && '\n' !in obs
    requires IsStripped(line) && StartsWithNoCase(line, "MEMORY") && |line| >= 7 && line[6] == '['
    requires line[7..] == tag + ("]: " + obs)
    ensures MatchTagged(line) == Some((tag, obs))
  {
    MatchBracketedOf(tag, obs);
  }

  /** The tag and observation of `tag]: obs` are matched back out. */
  lemma MatchBracketedOf(tag: string, obs: string)
    requires tag != [] && forall i :: 0 <= i < |tag| ==> IsWordChar(tag[i])
    requires obs != [] && IsStripped(obs) && '\n' !in obs
    ensures var s := tag + ("]: " + obs); (s == [] || !IsSpace(s[|s| - 1])) && MatchBracketed(s) == Some((tag, obs))
  {
    var s := tag + ("]: " + obs);
    assert s[|s| - 1] == obs[|obs| - 1];
    TakeWordCharsRun(tag, "]: " + obs);
    assert s[|tag|..] == "]: " + obs;
    MatchTailOf(obs);
  }

  /** After the tag, "]: " followed by a stripped one-line observation yields that observation. */
  lemma MatchTailOf(obs: string)
    requires obs != [] && IsStripped(obs) && '\n' !in obs
    ensures MatchTail("]: " + obs) == Some(obs)
  {
    var after := "]: " + obs;
    assert after[..2] == "]:";
    assert after[2..] == [' '] + obs;
    TrimLeftPrefix([' '], obs, Whitespace);
    assert TrimLeft(obs, Whitespace) == obs;
    assert TakeUntil(obs, '\n') == obs;
  }

  /** Rendering a tagged MEMORY line and parsing it back gives the tag's entity and the observation. */
  lemma ParseTaggedLine(tag: string, obs: string, v: Vocabulary)
    requires tag != [] && forall i :: 0 <= i < |tag| ==> IsWordChar(tag[i])
    requires obs != [] && IsStripped(obs) && '\n' !in obs
    ensures ParseMemoryLine("MEMORY[" + tag + "]: " + obs, v) == Some(Tagged(NormalizeTag(tag, v), obs))
  {
    var line := "MEMORY[" + tag + "]: " + obs;
    MatchTaggedLine(tag, obs);
    StripStripped(line);
    StripStripped(obs);
  }
}
