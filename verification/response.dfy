/**
 * The structured reply of the language model: an optional `ACTIONS:` line
 * first, free text in the middle, an optional `MEMORY` line last. Parsing
 * splits the reply into the action names to run, the message to show and
 * the observation to remember.
 */
module Response {
  import opened Wrappers
  import opened Text
  import opened Entities

  datatype Parsed = Parsed(actions: seq<string>, message: string, memory: Option<Tagged>)

  /** A line that strips to nothing: only whitespace. */
  predicate IsBlank(line: string) {
    AllSpace(line)
  }

  /** The index of the last non-blank line, searching from the end. */
  function LastNonBlank(lines: seq<string>): (r: Option<nat>)
    ensures r.Some? ==> r.value < |lines| && !IsBlank(lines[r.value])
    ensures r.Some? ==> forall j :: r.value < j < |lines| ==> IsBlank(lines[j])
    ensures r.None? ==> forall j :: 0 <= j < |lines| ==> IsBlank(lines[j])
    decreases |lines|
  {
    if lines == [] then None
    else if !IsBlank(lines[|lines| - 1]) then Some(|lines| - 1)
    else
      var init := lines[..|lines| - 1];
      assert forall j :: 0 <= j < |init| ==> init[j] == lines[j];
      LastNonBlank(init)
  }

  /**
   * The index of the memory line: the last non-blank line, provided it
   * starts with `MEMORY` in any case. The search stops at the first
   * non-blank line from the end whatever it holds.
   */
  function MemoryLineIndex(lines: seq<string>): (r: Option<nat>)
    ensures r.Some? <==>
      LastNonBlank(lines).Some? && StartsWithNoCase(Strip(lines[LastNonBlank(lines).value]), "MEMORY")
    ensures r.Some? ==> r == LastNonBlank(lines)
  {
    match LastNonBlank(lines)
    case None => None
    case Some(i) => if StartsWithNoCase(Strip(lines[i]), "MEMORY") then Some(i) else None
  }

  /**
   * The lines left for actions and message: those before the memory line.
   * The index is tested for truth, so a memory line at index 0 removes
   * nothing.
   */
  function ProcessedLines(lines: seq<string>, idx: Option<nat>): (r: seq<string>)
    requires idx.Some? ==> idx.value < |lines|
    ensures r <= lines
    ensures idx.Some? && idx.value > 0 ==> |r| == idx.value
    ensures idx.None? || idx.value == 0 ==> r == lines
  {
    if idx.Some? && idx.value != 0 then lines[..idx.value] else lines
  }

  /** An action name as the parser hands it on. */
  predicate IsActionName(a: string) {
    a != [] && IsStripped(a) && IsLower(a)
  }

  /** `[a.strip().lower() for a in parts if a.strip()]`. */
  function ActionNames(parts: seq<string>): (r: seq<string>)
    ensures |r| <= |parts|
    decreases |parts|
  {
    if parts == [] then []
    else
      var a := Strip(parts[0]);
      if a == [] then ActionNames(parts[1..]) else [LowerStr(a)] + ActionNames(parts[1..])
  }

  /** Every name the filter keeps is non-empty, stripped and lower case. */
  lemma {:induction false} ActionNamesClean(parts: seq<string>)
    ensures forall k :: 0 <= k < |ActionNames(parts)| ==> IsActionName(ActionNames(parts)[k])
    decreases |parts|
  {
    if parts != [] {
      ActionNamesClean(parts[1..]);
      var a := Strip(parts[0]);
      var rest := ActionNames(parts[1..]);
      if a != [] {
        CleanName(a);
        assert ActionNames(parts) == [LowerStr(a)] + rest;
        ConsNames(LowerStr(a), rest);
      } else {
        assert ActionNames(parts) == rest;
      }
    }
  }

  /** A name put in front of names keeps every element a name. */
  lemma ConsNames(x: string, rest: seq<string>)
    requires IsActionName(x) && forall k :: 0 <= k < |rest| ==> IsActionName(rest[k])
    ensures forall k :: 0 <= k < |[x] + rest| ==> IsActionName(([x] + rest)[k])
  {
    var r := [x] + rest;
    assert forall k :: 1 <= k < |r| ==> r[k] == rest[k - 1];
  }

  /** Lower-casing a stripped non-empty text gives an action name. */
  lemma CleanName(a: string)
    requires a != [] && IsStripped(a)
    ensures IsActionName(LowerStr(a))
  {
    LowerKeepsSpace(a);
    LowerIdempotent(a);
  }

  const Brackets: set<char> := {'[', ']'}

  /**
   * The names of an `ACTIONS:` line: the text after the eight-character
   * prefix, stripped of whitespace and then of brackets, split at commas.
   */
  function ActionList(line: string): (r: seq<string>)
    ensures forall k :: 0 <= k < |r| ==> IsActionName(r[k])
  {
    var parts := Split(StripOf(Strip(Drop(line, 8)), Brackets), ',');
    ActionNamesClean(parts);
    ActionNames(parts)
  }

  /** Python's `s[n:]`: empty when `s` is shorter than `n`. */
  function Drop(s: string, n: nat): (r: string)
    ensures |s| <= n ==> r == []
    ensures n < |s| ==> r == s[n..]
  {
    if |s| <= n then [] else s[n..]
  }

  /** The action names of the first processed line, if it is an `ACTIONS:` line, and the remaining lines. */
  function SplitActions(body: seq<string>): (r: (seq<string>, seq<string>))
    ensures forall k :: 0 <= k < |r.0| ==> IsActionName(r.0[k])
    ensures body != [] && StartsWithNoCase(Strip(body[0]), "ACTIONS:") ==> r.1 == body[1..]
    ensures !(body != [] && StartsWithNoCase(Strip(body[0]), "ACTIONS:")) ==> r == ([], body)
  {
    if body != [] && StartsWithNoCase(Strip(body[0]), "ACTIONS:") then
      (ActionList(Strip(body[0])), body[1..])
    else ([], body)
  }

  /** The memory of a reply's lines: the parsed memory line, if there is one. */
  function MemoryOf(lines: seq<string>): (r: Option<Tagged>)
    ensures r.Some? ==> MemoryLineIndex(lines).Some?
    ensures r.Some? ==> r.value.entity != [] && r.value.observation != [] && IsStripped(r.value.observation)
  {
    match MemoryLineIndex(lines)
    case None => None
    case Some(i) => ParseMemoryLine(lines[i], ResponseVocabulary)
  }

  /** The lines that hold the actions and the message. */
  function BodyOf(lines: seq<string>): (r: seq<string>)
    ensures r <= lines
  {
    ProcessedLines(lines, MemoryLineIndex(lines))
  }

  /** Parses the lines of a reply into actions, message and memory. */
  function ParseLines(lines: seq<string>): (r: Parsed)
    ensures forall k :: 0 <= k < |r.actions| ==> IsActionName(r.actions[k])
    ensures IsStripped(r.message)
    ensures r.memory.Some? ==>
      && MemoryLineIndex(lines).Some?
      && r.memory.value.entity != [] && r.memory.value.observation != []
      && IsStripped(r.memory.value.observation)
  {
    var (actions, rest) := SplitActions(BodyOf(lines));
    Parsed(actions, Strip(Join(rest, "\n")), MemoryOf(lines))
  }

  /** Parses a whole reply: its stripped text is cut into lines at newlines. */
  function ParseResponse(text: string): (r: Parsed)
    ensures forall k :: 0 <= k < |r.actions| ==> IsActionName(r.actions[k])
    ensures IsStripped(r.message)
    ensures r.memory.Some? ==>
      && MemoryLineIndex(Split(Strip(text), '\n')).Some?
      && r.memory.value.entity != [] && r.memory.value.observation != []
      && IsStripped(r.memory.value.observation)
  {
    ParseLines(Split(Strip(text), '\n'))
  }

  // ---------------------------------------------------------------------
  // Round trips
  // ---------------------------------------------------------------------

  /** An action name that can be written into an `ACTIONS:` line and read back. */
  predicate Writable(a: string) {
    IsActionName(a) && ',' !in a && '[' !in a && ']' !in a && '\n' !in a
  }

  /** The `ACTIONS:` line naming `names`, comma separated. */
  function ActionLine(names: seq<string>): string {
    "ACTIONS: " + Join(names, ",")
  }

  /** Names that are already clean pass the filter unchanged. */
  lemma {:induction false} ActionNamesOfNames(names: seq<string>)
    requires forall k :: 0 <= k < |names| ==> IsActionName(names[k])
    ensures ActionNames(names) == names
    decreases |names|
  {
    if names != [] {
      var x, xs := names[0], names[1..];
      assert forall k :: 0 <= k < |xs| ==> IsActionName(xs[k]) by {
        assert forall k :: 0 <= k < |xs| ==> xs[k] == names[k + 1];
      }
      ActionNamesOfNames(xs);
      assert IsActionName(x);
      KeptName(x, names);
      assert names == [x] + xs;
    }
  }

  /** A clean first name is kept as it is, ahead of the names after it. */
  lemma KeptName(x: string, names: seq<string>)
    requires names != [] && names[0] == x && IsActionName(x)
    ensures ActionNames(names) == [x] + ActionNames(names[1..])
  {
    assert Strip(x) != [] && LowerStr(Strip(x)) == x by {
      StripStripped(x);
      LowerOfLower(x);
    }
  }

  /** A join of non-empty parts starts with the first part's first character and ends with the last part's last. */
  lemma {:induction false} JoinEnds(parts: seq<string>, sep: string)
    requires |parts| >= 1 && forall k :: 0 <= k < |parts| ==> parts[k] != []
    ensures var j := Join(parts, sep);
      && j != [] && j[0] == parts[0][0]
      && j[|j| - 1] == parts[|parts| - 1][|parts[|parts| - 1]| - 1]
    decreases |parts|
  {
    if |parts| > 1 {
      JoinEnds(parts[1..], sep);
    }
  }

  /** The comma join of writable names is stripped and bracket-free at both ends. */
  lemma JoinedNames(names: seq<string>)
    requires |names| >= 1 && forall k :: 0 <= k < |names| ==> Writable(names[k])
    ensures var j := Join(names, ",");
      j != [] && IsStripped(j) && j[0] !in Brackets && j[|j| - 1] !in Brackets
  {
    JoinEnds(names, ",");
    assert Writable(names[0]) && Writable(names[|names| - 1]);
    var last := names[|names| - 1];
    assert last[|last| - 1] in last;
  }

  /** Writing names into an `ACTIONS:` line and parsing it gives the names back. */
  lemma ActionLineRoundTrip(names: seq<string>)
    requires forall k :: 0 <= k < |names| ==> Writable(names[k])
    ensures ActionList(ActionLine(names)) == names
  {
    var j := Join(names, ",");
    if names == [] {
      assert Drop(ActionLine(names), 8) == " ";
      assert Strip(" ") == [];
    } else {
      assert Strip(Drop(ActionLine(names), 8)) == j by {
        JoinedNames(names);
        ActionLineBody(names);
      }
      NamesOfJoin(names);
    }
  }

  /** After the keyword, the `ACTIONS:` line holds the joined names behind one space. */
  lemma ActionLineBody(names: seq<string>)
    requires IsStripped(Join(names, ","))
    ensures Strip(Drop(ActionLine(names), 8)) == Join(names, ",")
  {
    var j := Join(names, ",");
    assert Drop(ActionLine(names), 8) == [' '] + j;
    StripSpacePrefix([' '], j);
    StripStripped(j);
  }

  /** Splitting the comma join of writable names at commas and cleaning the parts gives the names. */
  lemma NamesOfJoin(names: seq<string>)
    requires names != [] && forall k :: 0 <= k < |names| ==> Writable(names[k])
    ensures ActionNames(Split(StripOf(Join(names, ","), Brackets), ',')) == names
  {
    var j := Join(names, ",");
    assert StripOf(j, Brackets) == j by {
      JoinedNames(names);
    }
    assert Split(j, ',') == names by {
      SplitJoin(names, ',');
    }
    assert ActionNames(names) == names by {
      ActionNamesOfNames(names);
    }
  }

  /** A reply without a final `MEMORY` line and without a leading `ACTIONS:` line is all message. */
  lemma PlainReply(text: string)
    requires var lines := Split(Strip(text), '\n');
      MemoryLineIndex(lines).None? && !StartsWithNoCase(Strip(lines[0]), "ACTIONS:")
    ensures ParseResponse(text) == Parsed([], Strip(text), None)
  {
    JoinSplit(Strip(text), '\n');
    StripStripped(Strip(text));
  }

  /**
   * A text of a first line, a middle and a last line is stripped when its
   * outer ends are, and splits into the first line, the middle's lines and
   * the last line.
   */
  lemma FramedLines(first: string, middle: string, last: string)
    requires first != [] && '\n' !in first && !IsSpace(first[0])
    requires last != [] && '\n' !in last && !IsSpace(last[|last| - 1])
    ensures Split(Strip(first + "\n" + middle + "\n" + last), '\n') == [first] + Split(middle, '\n') + [last]
  {
    var text := first + "\n" + middle + "\n" + last;
    assert Strip(text) == text by {
      FramedStrip(first, middle, last);
    }
    FramedSplit(first, middle, last);
  }

  /** The text of a first line, a middle and a last line is stripped when its outer ends are. */
  lemma FramedStrip(first: string, middle: string, last: string)
    requires first != [] && !IsSpace(first[0])
    requires last != [] && !IsSpace(last[|last| - 1])
    ensures Strip(first + "\n" + middle + "\n" + last) == first + "\n" + middle + "\n" + last
  {
    var text := first + "\n" + middle + "\n" + last;
    assert text[0] == first[0] && text[|text| - 1] == last[|last| - 1];
    StripStripped(text);
  }

  /** The lines of `first \n middle \n last` when neither end line holds a newline. */
  lemma FramedSplit(first: string, middle: string, last: string)
    requires '\n' !in first && '\n' !in last
    ensures Split(first + "\n" + middle + "\n" + last, '\n') == [first] + Split(middle, '\n') + [last]
  {
    var tail := middle + "\n" + last;
    assert first + "\n" + middle + "\n" + last == first + ['\n'] + tail;
    SplitAround(first, tail, '\n');
    SplitAround(middle, last, '\n');
    SplitNoSeparator(first, '\n');
    SplitNoSeparator(last, '\n');
  }

  /** The `MEMORY[tag]: obs` line. */
  function MemoryLine(tag: string, obs: string): string {
    "MEMORY[" + tag + "]: " + obs
  }

  /** A tag the pattern `(\w+)` matches whole. */
  predicate IsTag(tag: string) {
    tag != [] && forall i :: 0 <= i < |tag| ==> IsWordChar(tag[i])
  }

  /** An observation the pattern `(.+)` captures whole from a stripped line. */
  predicate IsObservationText(obs: string) {
    obs != [] && IsStripped(obs) && '\n' !in obs
  }

  /** The shape of a memory line that closes a reply. */
  lemma MemoryLineShape(tag: string, obs: string)
    requires IsTag(tag) && IsObservationText(obs)
    ensures var line := MemoryLine(tag, obs);
      && '\n' !in line && !IsBlank(line) && line[|line| - 1] == obs[|obs| - 1]
  {
    var line := MemoryLine(tag, obs);
    assert line[0] == 'M';
    assert line[|line| - 1] == obs[|obs| - 1];
    assert forall i :: 0 <= i < |line| ==> line[i] in "MEMORY[]: " || line[i] in tag || line[i] in obs;
    assert forall i :: 0 <= i < |tag| ==> tag[i] != '\n';
  }

  /** What the parser needs of a memory line that closes a reply. */
  lemma MemoryLineFacts(tag: string, obs: string)
    requires IsTag(tag) && IsObservationText(obs)
    ensures var line := MemoryLine(tag, obs);
      && line != [] && '\n' !in line && !IsBlank(line) && IsStripped(line)
      && StartsWithNoCase(Strip(line), "MEMORY")
      && ParseMemoryLine(line, ResponseVocabulary) == Some(Tagged(NormalizeTag(tag, ResponseVocabulary), obs))
  {
    var line := MemoryLine(tag, obs);
    MemoryLineShape(tag, obs);
    assert IsStripped(line) && StartsWithNoCase(Strip(line), "MEMORY") by {
      TaggedLineShape(tag, obs);
      StripStripped(line);
    }
    assert ParseMemoryLine(line, ResponseVocabulary) == Some(Tagged(NormalizeTag(tag, ResponseVocabulary), obs)) by {
      ParseTaggedLine(tag, obs, ResponseVocabulary);
    }
  }

  /** What the parser needs of the `ACTIONS:` line that opens a reply. */
  lemma ActionLineFacts(names: seq<string>)
    requires names != [] && forall k :: 0 <= k < |names| ==> Writable(names[k])
    ensures var line := ActionLine(names);
      && line != [] && '\n' !in line && IsStripped(line)
      && StartsWithNoCase(Strip(line), "ACTIONS:") && ActionList(Strip(line)) == names
  {
    ActionLineRoundTrip(names);
    ActionLineShape(names);
    StripStripped(ActionLine(names));
  }

  /** The `ACTIONS:` line naming at least one action is stripped, one line, and starts with its keyword. */
  lemma ActionLineShape(names: seq<string>)
    requires names != [] && forall k :: 0 <= k < |names| ==> Writable(names[k])
    ensures var line := ActionLine(names);
      '\n' !in line && IsStripped(line) && StartsWithNoCase(line, "ACTIONS:")
  {
    var j := Join(names, ",");
    var line := ActionLine(names);
    assert line == "ACTIONS: " + j;
    JoinedNames(names);
    assert line[|line| - 1] == j[|j| - 1];
    assert forall k :: 0 <= k < |names| ==> '\n' !in names[k];
    JoinNoSeparator(names, ",", '\n');
    assert '\n' !in "ACTIONS: ";
    UpperPrefix("ACTIONS:", " " + j);
    assert line == "ACTIONS:" + (" " + j);
  }

  /** Upper-casing a text starts with upper-casing its prefix. */
  lemma UpperPrefix(p: string, s: string)
    ensures StartsWith(UpperStr(p + s), UpperStr(p))
  {
    assert forall i :: 0 <= i < |p| ==> (p + s)[i] == p[i];
  }

  /** Joining parts free of a character with a separator free of it gives a text free of it. */
  lemma {:induction false} JoinNoSeparator(parts: seq<string>, sep: string, c: char)
    requires c !in sep && forall k :: 0 <= k < |parts| ==> c !in parts[k]
    ensures c !in Join(parts, sep)
    decreases |parts|
  {
    if |parts| > 1 {
      JoinNoSeparator(parts[1..], sep, c);
    }
  }

  /** The reply `ACTIONS: names`, the message, then the memory line. */
  function Reply(names: seq<string>, message: string, tag: string, obs: string): string {
    ActionLine(names) + "\n" + message + "\n" + MemoryLine(tag, obs)
  }

  /** A non-blank last line that starts with `MEMORY` is the memory line. */
  lemma MemoryLast(lines: seq<string>)
    requires lines != [] && !IsBlank(lines[|lines| - 1])
    requires StartsWithNoCase(Strip(lines[|lines| - 1]), "MEMORY")
    ensures MemoryLineIndex(lines) == Some(|lines| - 1)
    ensures MemoryOf(lines) == ParseMemoryLine(lines[|lines| - 1], ResponseVocabulary)
    ensures BodyOf(lines) == if |lines| == 1 then lines else lines[..|lines| - 1]
  {
    assert LastNonBlank(lines) == Some(|lines| - 1);
  }

  /** How a reply whose first line is an `ACTIONS:` line and whose last is a memory line is parsed. */
  lemma ParseFramedReply(text: string, first: string, middle: seq<string>, last: string)
    requires Split(Strip(text), '\n') == [first] + middle + [last]
    requires StartsWithNoCase(Strip(first), "ACTIONS:")
    requires !IsBlank(last) && StartsWithNoCase(Strip(last), "MEMORY")
    ensures ParseResponse(text)
      == Parsed(ActionList(Strip(first)), Strip(Join(middle, "\n")), ParseMemoryLine(last, ResponseVocabulary))
  {
    var lines := [first] + middle + [last];
    assert lines[|lines| - 1] == last;
    MemoryLast(lines);
    assert BodyOf(lines) == [first] + middle;
    ActionsFirst(first, middle);
  }

  /** An `ACTIONS:` first line yields its names and leaves the lines after it. */
  lemma ActionsFirst(first: string, middle: seq<string>)
    requires StartsWithNoCase(Strip(first), "ACTIONS:")
    ensures SplitActions([first] + middle) == (ActionList(Strip(first)), middle)
  {
    var body := [first] + middle;
    assert body[0] == first && body[1..] == middle;
  }

  /** How a one-line reply that is a stripped memory line is parsed. */
  lemma ParseLoneMemoryLine(line: string)
    requires IsStripped(line) && '\n' !in line && !IsBlank(line)
    requires StartsWithNoCase(Strip(line), "MEMORY")
    ensures ParseResponse(line) == Parsed([], line, ParseMemoryLine(line, ResponseVocabulary))
  {
    assert Split(Strip(line), '\n') == [line] by {
      StripStripped(line);
      SplitNoSeparator(line, '\n');
    }
    LoneLineParsed(line);
  }

  /** The single-line list holding a memory line is parsed to that line as the message. */
  lemma LoneLineParsed(line: string)
    requires IsStripped(line) && !IsBlank(line)
    requires StartsWithNoCase(Strip(line), "MEMORY")
    ensures ParseLines([line]) == Parsed([], line, ParseMemoryLine(line, ResponseVocabulary))
  {
    assert [line][0] == line;
    MemoryLast([line]);
    assert SplitActions([line]) == ([], [line]) by {
      DistinctPrefixes(UpperStr(Strip(line)), "MEMORY", "ACTIONS:");
    }
    assert Strip(Join([line], "\n")) == line by {
      StripStripped(line);
    }
  }

  /** A text cannot start with two prefixes that differ in their first character. */
  lemma DistinctPrefixes(s: string, p: string, q: string)
    requires p != [] && q != [] && p[0] != q[0] && StartsWith(s, p)
    ensures !StartsWith(s, q)
  {
    assert s[..|p|][0] == s[0];
    if |q| <= |s| {
      assert s[..|q|][0] == s[0];
    }
  }

  /** How `first \n message \n last` is parsed when the end lines are an `ACTIONS:` line and a memory line. */
  lemma ParseFramedText(first: string, message: string, last: string)
    requires first != [] && '\n' !in first && IsStripped(first) && StartsWithNoCase(Strip(first), "ACTIONS:")
    requires last != [] && '\n' !in last && IsStripped(last) && !IsBlank(last)
    requires StartsWithNoCase(Strip(last), "MEMORY")
    requires IsStripped(message)
    ensures ParseResponse(first + "\n" + message + "\n" + last)
      == Parsed(ActionList(Strip(first)), message, ParseMemoryLine(last, ResponseVocabulary))
  {
    FramedLines(first, message, last);
    ParseFramedReply(first + "\n" + message + "\n" + last, first, Split(message, '\n'), last);
    JoinSplit(message, '\n');
    StripStripped(message);
  }

  /**
   * Writing actions, a message and a tagged memory into a reply and parsing
   * it gives back the actions, the message and the memory under its
   * normalised entity name.
   */
  lemma ParseReplyRoundTrip(names: seq<string>, message: string, tag: string, obs: string)
    requires names != [] && forall k :: 0 <= k < |names| ==> Writable(names[k])
    requires IsStripped(message) && IsTag(tag) && IsObservationText(obs)
    ensures ParseResponse(Reply(names, message, tag, obs))
      == Parsed(names, message, Some(Tagged(NormalizeTag(tag, ResponseVocabulary), obs)))
  {
    ActionLineFacts(names);
    MemoryLineFacts(tag, obs);
    ParseFramedText(ActionLine(names), message, MemoryLine(tag, obs));
  }

  /**
   * A reply that is nothing but a memory line stores the memory, but since
   * the memory line sits at index 0 it is not removed and the message is the
   * memory line itself.
   */
  lemma MemoryOnlyReply(tag: string, obs: string)
    requires IsTag(tag) && IsObservationText(obs)
    ensures ParseResponse(MemoryLine(tag, obs))
      == Parsed([], MemoryLine(tag, obs), Some(Tagged(NormalizeTag(tag, ResponseVocabulary), obs)))
  {
    MemoryLineFacts(tag, obs);
    ParseLoneMemoryLine(MemoryLine(tag, obs));
  }
}
