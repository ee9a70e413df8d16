// One chat turn with the language model: the conversation history, the
// sentence-by-sentence speaking of the streamed reply, the retries, and
// the storing of the memory the reply carries.

module Dialogue {
  import opened Wrappers
  import opened Text
  import opened Entities
  import opened MemoryStore
  import opened Response

  /** Attempts per turn. */
  const MaxRetries: nat := 3

  /** History longer than this is pruned: the system turn and ten exchanges. */
  const HistoryLimit: nat := 21

  /** What the robot says when every attempt failed. */
  const Apology: string := "Jag kan inte tänka just nu, försök igen!"

  /** What a turn returns when the user interrupted the spoken reply. */
  const InterruptedAnswer: string := "interrupted"

  /** A sentence is complete once the buffer, right-stripped, ends with one of these. */
  const SentenceEndings: set<char> := {'.', '!', '?', '。', '！', '？'}

  datatype Role = System | User | Assistant

  datatype Message = Message(role: Role, content: string)

  type History = seq<Message>

  // ---------------------------------------------------------------------
  // History pruning
  // ---------------------------------------------------------------------

  function Min(a: nat, b: nat): nat {
    if a <= b then a else b
  }

  /**
   * Keep the history reasonable: past the limit, only the first (system)
   * message and the latest `HistoryLimit - 1` messages survive.
   */
  function Prune(h: History): (r: History)
    ensures |r| == Min(|h|, HistoryLimit)
    ensures h != [] ==> r != [] && r[0] == h[0]
    ensures h != [] ==> r[1..] == h[|h| - (|r| - 1)..]
  {
    if |h| > HistoryLimit then [h[0]] + h[|h| - (HistoryLimit - 1)..] else h
  }

  /** Pruning a pruned history changes nothing. */
  lemma PruneIdempotent(h: History)
    ensures Prune(Prune(h)) == Prune(h)
  {
    var r := Prune(h);
    if h != [] {
      assert r == [r[0]] + r[1..];
    }
  }

  // ---------------------------------------------------------------------
  // Sentence flushing of the streamed reply
  // ---------------------------------------------------------------------

  /** The buffer holds a complete sentence. */
  predicate EndsSentence(buffer: string) {
    var t := RStrip(buffer);
    t != [] && t[|t| - 1] in SentenceEndings
  }

  /** Protocol lines are never read aloud. */
  predicate IsControl(sentence: string) {
    StartsWithNoCase(sentence, "ACTIONS:") || StartsWithNoCase(sentence, "MEMORY")
  }

  /** What may be passed to the speech synthesiser. */
  predicate IsUtterance(u: string) {
    u != [] && IsStripped(u) && !IsControl(u)
  }

  predicate AllUtterances(us: seq<string>) {
    forall k :: 0 <= k < |us| ==> IsUtterance(us[k])
  }

  lemma UtterancesAppend(a: seq<string>, b: seq<string>)
    requires AllUtterances(a) && AllUtterances(b)
    ensures AllUtterances(a + b)
  {
    assert forall k :: 0 <= k < |a + b| ==> (a + b)[k] == if k < |a| then a[k] else b[k - |a|];
  }

  /**
   * Cut the token stream into sentences. Empty tokens are skipped; after
   * each non-empty token the buffer is flushed when it ends a sentence.
   * The result holds the flushed buffers and what is left at the end.
   */
  function Flush(tokens: seq<string>, buffer: string): (r: (seq<string>, string))
    requires !EndsSentence(buffer)
    ensures Concat(r.0) + r.1 == buffer + Concat(tokens)
    ensures AllSentences(r.0)
    ensures !EndsSentence(r.1)
    decreases |tokens|
  {
    if tokens == [] then ([], buffer)
    else
      var t := tokens[0];
      ConcatStep(buffer, tokens);
      if t == [] then
        assert buffer + t == buffer;
        Flush(tokens[1..], buffer)
      else
        var b := buffer + t;
        if EndsSentence(b) then
          var (segments, rest) := Flush(tokens[1..], []);
          FlushedSentence(buffer, tokens, segments, rest);
          SentencesCons(b, segments);
          ([b] + segments, rest)
        else
          Flush(tokens[1..], b)
  }

  predicate AllSentences(segments: seq<string>) {
    forall k :: 0 <= k < |segments| ==> EndsSentence(segments[k])
  }

  lemma SentencesCons(b: string, segments: seq<string>)
    requires EndsSentence(b) && AllSentences(segments)
    ensures AllSentences([b] + segments)
  {
    assert forall k :: 0 < k < |[b] + segments| ==> ([b] + segments)[k] == segments[k - 1];
  }

  lemma FlushedSentence(buffer: string, tokens: seq<string>, segments: seq<string>, rest: string)
    requires tokens != []
    requires Concat(segments) + rest == [] + Concat(tokens[1..])
    ensures Concat([buffer + tokens[0]] + segments) + rest == buffer + Concat(tokens)
  {
    var b := buffer + tokens[0];
    calc {
      Concat([b] + segments) + rest;
      == { ConcatCons(b, segments); }
      (b + Concat(segments)) + rest;
      == { AppendAssoc(b, Concat(segments), rest); }
      b + (Concat(segments) + rest);
      == { assert [] + Concat(tokens[1..]) == Concat(tokens[1..]); }
      b + Concat(tokens[1..]);
      == { ConcatStep(buffer, tokens); }
      buffer + Concat(tokens);
    }
  }

  lemma ConcatStep(buffer: string, tokens: seq<string>)
    requires tokens != []
    ensures (buffer + tokens[0]) + Concat(tokens[1..]) == buffer + Concat(tokens)
  {
  }

  /** The buffer once the first `m` tokens have been added. */
  function Filled(buffer: string, tokens: seq<string>, m: nat): string
    requires m <= |tokens|
  {
    buffer + Concat(tokens[..m])
  }

  /** No non-empty token among the first `m` leaves the buffer ending a sentence. */
  predicate NoEndBefore(buffer: string, tokens: seq<string>, m: nat)
    requires m <= |tokens|
  {
    forall j :: 0 <= j < m && tokens[j] != [] ==> !EndsSentence(Filled(buffer, tokens, j + 1))
  }

  lemma FilledStep(buffer: string, tokens: seq<string>, m: nat)
    requires 0 < m <= |tokens|
    ensures Filled(buffer, tokens, m) == Filled(buffer + tokens[0], tokens[1..], m - 1)
  {
    assert tokens[..m] == [tokens[0]] + tokens[1..][..m - 1];
    ConcatCons(tokens[0], tokens[1..][..m - 1]);
    AppendAssoc(buffer, tokens[0], Concat(tokens[1..][..m - 1]));
  }

  lemma FilledOne(buffer: string, tokens: seq<string>)
    requires tokens != []
    ensures Filled(buffer, tokens, 1) == buffer + tokens[0]
  {
    var one: seq<string> := [tokens[0]];
    assert tokens[..1] == one && one + [] == one;
    ConcatCons(tokens[0], []);
    assert Concat(one) == tokens[0] + [];
  }

  lemma NoEndBeforeStep(buffer: string, tokens: seq<string>, m: nat)
    requires 0 < m <= |tokens| && NoEndBefore(buffer, tokens, m)
    ensures NoEndBefore(buffer + tokens[0], tokens[1..], m - 1)
  {
    forall j | 0 <= j < m - 1 && tokens[1..][j] != []
      ensures !EndsSentence(Filled(buffer + tokens[0], tokens[1..], j + 1))
    {
      FilledStep(buffer, tokens, j + 2);
    }
  }

  /**
   * The first cut falls at the first non-empty token after which the
   * buffer ends a sentence: everything up to it is one sentence, and the
   * rest of the stream is flushed afresh from an empty buffer.
   */
  lemma {:induction false} FlushCutsAtFirstEnd(tokens: seq<string>, buffer: string, i: nat)
    requires !EndsSentence(buffer)
    requires i < |tokens| && tokens[i] != [] && EndsSentence(Filled(buffer, tokens, i + 1))
    requires NoEndBefore(buffer, tokens, i)
    ensures Flush(tokens, buffer) ==
      ([Filled(buffer, tokens, i + 1)] + Flush(tokens[i + 1..], []).0, Flush(tokens[i + 1..], []).1)
    decreases i
  {
    FilledStep(buffer, tokens, i + 1);
    var b := buffer + tokens[0];
    if i == 0 {
      FilledOne(buffer, tokens);
    } else {
      NoEndBeforeStep(buffer, tokens, i);
      assert tokens[1..][i..] == tokens[i + 1..];
      if tokens[0] == [] {
        assert b == buffer;
        FlushCutsAtFirstEnd(tokens[1..], buffer, i - 1);
      } else {
        FilledOne(buffer, tokens);
        assert !EndsSentence(b);
        FlushCutsAtFirstEnd(tokens[1..], b, i - 1);
      }
    }
  }

  /** With no token completing a sentence, nothing is flushed and everything stays in the buffer. */
  lemma {:induction false} FlushKeepsUnended(tokens: seq<string>, buffer: string)
    requires !EndsSentence(buffer)
    requires NoEndBefore(buffer, tokens, |tokens|)
    ensures Flush(tokens, buffer) == ([], Filled(buffer, tokens, |tokens|))
    decreases |tokens|
  {
    if tokens == [] {
      assert tokens[..0] == [] && buffer + [] == buffer;
    } else {
      FilledStep(buffer, tokens, |tokens|);
      NoEndBeforeStep(buffer, tokens, |tokens|);
      assert tokens[..|tokens|] == tokens && tokens[1..][..|tokens| - 1] == tokens[1..];
      var b := buffer + tokens[0];
      if tokens[0] == [] {
        assert b == buffer;
        FlushKeepsUnended(tokens[1..], buffer);
      } else {
        FilledOne(buffer, tokens);
        assert !EndsSentence(b);
        FlushKeepsUnended(tokens[1..], b);
      }
    }
  }

  /** A complete sentence has something to say. */
  lemma SentenceNotBlank(b: string)
    requires EndsSentence(b)
    ensures Strip(b) != []
  {
    var t := RStrip(b);
    assert b[|t| - 1] == t[|t| - 1];
    assert !IsSpace(b[|t| - 1]);
  }

  /** The flushed sentences that are spoken, protocol lines left out. */
  function Spoken(segments: seq<string>): (r: seq<string>)
    ensures |r| <= |segments|
  {
    if segments == [] then []
    else
      var u := Strip(segments[0]);
      var rest := Spoken(segments[1..]);
      if IsControl(u) then rest else [u] + rest
  }

  /** Everything spoken from complete sentences is a proper utterance. */
  lemma {:induction false} SpokenUtterances(segments: seq<string>)
    requires AllSentences(segments)
    ensures AllUtterances(Spoken(segments))
    decreases |segments|
  {
    if segments != [] {
      var u := Strip(segments[0]);
      var rest := Spoken(segments[1..]);
      SpokenUtterances(segments[1..]);
      if !IsControl(u) {
        SentenceNotBlank(segments[0]);
        UtterancesAppend([u], rest);
      }
    }
  }

  /** The text left after the stream ends is spoken when it is not blank and not a protocol line. */
  function Remainder(rest: string): (r: seq<string>)
    ensures |r| <= 1
    ensures AllUtterances(r)
    ensures r == [] <==> AllSpace(rest) || IsControl(Strip(rest))
  {
    var u := Strip(rest);
    if u != [] && !IsControl(u) then [u] else []
  }

  // ---------------------------------------------------------------------
  // A turn
  // ---------------------------------------------------------------------

  /**
   * One reply from the language model: the tokens it streams, and whether
   * the call raises after delivering them (a failed request delivers none).
   */
  datatype Attempt = Attempt(tokens: seq<string>, raises: bool)

  /** How a turn ended; not part of the returned pair, recorded to state properties. */
  datatype Outcome = Answered(attempt: nat) | Interrupted | GaveUp

  datatype Turn = Turn(
    answer: string,
    actions: seq<string>,
    history: History,
    memory: Option<Tagged>,
    store: Store,
    spoken: seq<string>,
    outcome: Outcome)

  /** The utterances attempt `a` speaks, in order. */
  function Utterances(a: Attempt): (r: seq<string>)
    ensures AllUtterances(r)
  {
    var (segments, rest) := Flush(a.tokens, []);
    var during := Spoken(segments);
    var after := if a.raises then [] else Remainder(rest);
    SpokenUtterances(segments);
    UtterancesAppend(during, after);
    during + after
  }

  /** The speech call with index `count` (counted over the whole turn) is the interrupted one. */
  predicate HeardAt(interruptAt: Option<nat>, count: nat, n: nat) {
    interruptAt.Some? && count <= interruptAt.value < count + n
  }

  /** Drop a trailing user message, as the final failure does. */
  function PopUser(h: History): (r: History)
    ensures h != [] && h[|h| - 1].role == User ==> r == h[..|h| - 1]
    ensures h == [] || h[|h| - 1].role != User ==> r == h
  {
    if h != [] && h[|h| - 1].role == User then h[..|h| - 1] else h
  }

  /** The state a successful reply leaves behind. */
  function Remember(store: Store, memory: Option<Tagged>, timestamp: string): (r: Store)
    ensures memory.None? ==> r == store
    ensures memory.Some? ==> r == AddObservation(store, memory.value.entity, memory.value.observation, timestamp)
  {
    match memory
    case None => store
    case Some(t) => AddObservation(store, t.entity, t.observation, timestamp)
  }

  /** What one attempt amounts to, worked out from its token stream. */
  datatype Prepared = Prepared(reply: string, utterances: seq<string>, parsed: Parsed, raises: bool)

  function Prepare(a: Attempt): (p: Prepared)
    ensures p.reply == Concat(a.tokens) && p.raises == a.raises
    ensures p.parsed == ParseResponse(p.reply)
    ensures AllUtterances(p.utterances)
  {
    var reply := Concat(a.tokens);
    Prepared(reply, Utterances(a), ParseResponse(reply), a.raises)
  }

  predicate AllPrepared(plans: seq<Prepared>) {
    forall k :: 0 <= k < |plans| ==> AllUtterances(plans[k].utterances)
  }

  /**
   * Attempts `i` onwards. `h` already ends with the user message; `said`
   * is what earlier attempts spoke.
   */
  function Try(
    i: nat, h: History, store: Store, plans: seq<Prepared>,
    interruptAt: Option<nat>, said: seq<string>, timestamp: string): (r: Turn)
    requires i < |plans| == MaxRetries
    requires h != [] && h[|h| - 1].role == User
    ensures said <= r.spoken
    ensures r.outcome.Answered? ==> i <= r.outcome.attempt < |plans|
    decreases MaxRetries - i
  {
    var p := plans[i];
    var u := p.utterances;
    if HeardAt(interruptAt, |said|, |u|) then
      var spoken := said + u[..interruptAt.value - |said| + 1];
      Turn(InterruptedAnswer, [], h, None, store, spoken, Interrupted)
    else if p.raises then
      if i == MaxRetries - 1 then
        Turn(Apology, [], PopUser(h), None, store, said + u, GaveUp)
      else
        Try(i + 1, h, store, plans, interruptAt, said + u, timestamp)
    else
      Turn(p.parsed.message, p.parsed.actions, Prune(h + [Message(Assistant, p.reply)]),
           p.parsed.memory, store, said + u, Answered(i))
  }

  /** Everything a turn speaks is a proper utterance, never a protocol line. */
  lemma {:induction false} TrySpeaksUtterances(
    i: nat, h: History, store: Store, plans: seq<Prepared>,
    interruptAt: Option<nat>, said: seq<string>, timestamp: string)
    requires i < |plans| == MaxRetries
    requires h != [] && h[|h| - 1].role == User
    requires AllPrepared(plans) && AllUtterances(said)
    ensures AllUtterances(Try(i, h, store, plans, interruptAt, said, timestamp).spoken)
    decreases MaxRetries - i
  {
    var u := plans[i].utterances;
    UtterancesAppend(said, u);
    if HeardAt(interruptAt, |said|, |u|) {
      var n := interruptAt.value - |said| + 1;
      assert AllUtterances(u[..n]) by {
        assert forall k :: 0 <= k < n ==> u[..n][k] == u[k];
      }
      UtterancesAppend(said, u[..n]);
    } else if plans[i].raises && i < MaxRetries - 1 {
      TrySpeaksUtterances(i + 1, h, store, plans, interruptAt, said + u, timestamp);
    }
  }

  /** Giving up happens only when every remaining attempt raised; the user message is taken back. */
  lemma {:induction false} TryGaveUp(
    i: nat, h: History, store: Store, plans: seq<Prepared>,
    interruptAt: Option<nat>, said: seq<string>, timestamp: string)
    requires i < |plans| == MaxRetries
    requires h != [] && h[|h| - 1].role == User
    ensures var r := Try(i, h, store, plans, interruptAt, said, timestamp);
      r.outcome.GaveUp? ==>
        && r.history == h[..|h| - 1] && r.memory.None? && r.store == store
        && r.answer == Apology && r.actions == []
        && forall j :: i <= j < |plans| ==> plans[j].raises
    decreases MaxRetries - i
  {
    var u := plans[i].utterances;
    if !HeardAt(interruptAt, |said|, |u|) && plans[i].raises && i < MaxRetries - 1 {
      TryGaveUp(i + 1, h, store, plans, interruptAt, said + u, timestamp);
    }
  }

  /** An interruption ends the turn at the interrupted utterance and leaves history and memory alone. */
  lemma {:induction false} TryInterrupted(
    i: nat, h: History, store: Store, plans: seq<Prepared>,
    interruptAt: Option<nat>, said: seq<string>, timestamp: string)
    requires i < |plans| == MaxRetries
    requires h != [] && h[|h| - 1].role == User
    requires !HeardAt(interruptAt, 0, |said|)
    ensures var r := Try(i, h, store, plans, interruptAt, said, timestamp);
      r.outcome.Interrupted? ==>
        && r.history == h && r.memory.None? && r.store == store
        && r.answer == InterruptedAnswer && r.actions == []
        && interruptAt.Some? && interruptAt.value == |r.spoken| - 1
    ensures var r := Try(i, h, store, plans, interruptAt, said, timestamp);
      !r.outcome.Interrupted? ==> !HeardAt(interruptAt, 0, |r.spoken|)
    decreases MaxRetries - i
  {
    var u := plans[i].utterances;
    if !HeardAt(interruptAt, |said|, |u|) && plans[i].raises && i < MaxRetries - 1 {
      TryInterrupted(i + 1, h, store, plans, interruptAt, said + u, timestamp);
    }
  }

  /** An answer comes from the first attempt that did not raise. */
  lemma {:induction false} TryAnsweredFirst(
    i: nat, h: History, store: Store, plans: seq<Prepared>,
    interruptAt: Option<nat>, said: seq<string>, timestamp: string)
    requires i < |plans| == MaxRetries
    requires h != [] && h[|h| - 1].role == User
    ensures var r := Try(i, h, store, plans, interruptAt, said, timestamp);
      r.outcome.Answered? ==>
        && i <= r.outcome.attempt < |plans|
        && !plans[r.outcome.attempt].raises
        && forall l :: i <= l < r.outcome.attempt ==> plans[l].raises
    decreases MaxRetries - i
  {
    var u := plans[i].utterances;
    if !HeardAt(interruptAt, |said|, |u|) && plans[i].raises && i < MaxRetries - 1 {
      TryAnsweredFirst(i + 1, h, store, plans, interruptAt, said + u, timestamp);
    }
  }

  /** The answering reply joins the history, which is then pruned; its parse is what the turn returns. */
  lemma {:induction false} TryAnsweredReply(
    i: nat, h: History, store: Store, plans: seq<Prepared>,
    interruptAt: Option<nat>, said: seq<string>, timestamp: string)
    requires i < |plans| == MaxRetries
    requires h != [] && h[|h| - 1].role == User
    ensures var r := Try(i, h, store, plans, interruptAt, said, timestamp);
      r.outcome.Answered? ==>
        var p := plans[r.outcome.attempt];
        && r.history == Prune(h + [Message(Assistant, p.reply)])
        && r.memory == p.parsed.memory && r.store == store
        && r.answer == p.parsed.message && r.actions == p.parsed.actions
    decreases MaxRetries - i
  {
    var u := plans[i].utterances;
    if !HeardAt(interruptAt, |said|, |u|) && plans[i].raises && i < MaxRetries - 1 {
      TryAnsweredReply(i + 1, h, store, plans, interruptAt, said + u, timestamp);
    }
  }

  /**
   * A whole turn: the user message joins the history once, before the
   * first attempt, and is taken back out when every attempt fails.
   */
  function Chat(
    h: History, store: Store, userMessage: string, attempts: seq<Attempt>,
    interruptAt: Option<nat>, timestamp: string): (r: Turn)
    requires |attempts| == MaxRetries
  {
    var t := Try(0, h + [Message(User, userMessage)], store, Plans(attempts), interruptAt, [], timestamp);
    t.(store := Remember(store, t.memory, timestamp))
  }

  // ---------------------------------------------------------------------
  // What a turn promises
  // ---------------------------------------------------------------------

  /** The attempts, each prepared. */
  function Plans(attempts: seq<Attempt>): (plans: seq<Prepared>)
    ensures |plans| == |attempts|
    ensures forall k :: 0 <= k < |attempts| ==> plans[k] == Prepare(attempts[k])
  {
    seq(|attempts|, k requires 0 <= k < |attempts| => Prepare(attempts[k]))
  }

  lemma PlansPrepared(attempts: seq<Attempt>)
    ensures AllPrepared(Plans(attempts))
  {
    var plans := Plans(attempts);
    forall k | 0 <= k < |attempts|
      ensures AllUtterances(plans[k].utterances)
    {
      assert plans[k] == Prepare(attempts[k]);
    }
  }

  /** When every attempt fails, the turn apologises and leaves history and memory as they were. */
  lemma ChatGaveUp(
    h: History, store: Store, userMessage: string, attempts: seq<Attempt>,
    interruptAt: Option<nat>, timestamp: string)
    requires |attempts| == MaxRetries
    ensures var r := Chat(h, store, userMessage, attempts, interruptAt, timestamp);
      r.outcome.GaveUp? ==>
        && r.history == h && r.store == store
        && r.answer == Apology && r.actions == []
        && forall j :: 0 <= j < |attempts| ==> attempts[j].raises
  {
    var withUser := h + [Message(User, userMessage)];
    var plans := Plans(attempts);
    TryGaveUp(0, withUser, store, plans, interruptAt, [], timestamp);
    assert withUser[..|withUser| - 1] == h;
  }

  /** An interrupted turn keeps the user message in the history but stores nothing. */
  lemma ChatInterrupted(
    h: History, store: Store, userMessage: string, attempts: seq<Attempt>,
    interruptAt: Option<nat>, timestamp: string)
    requires |attempts| == MaxRetries
    ensures var r := Chat(h, store, userMessage, attempts, interruptAt, timestamp);
      r.outcome.Interrupted? ==>
        && r.history == h + [Message(User, userMessage)] && r.store == store
        && r.answer == InterruptedAnswer && r.actions == []
        && interruptAt.Some? && interruptAt.value == |r.spoken| - 1
  {
    TryInterrupted(0, h + [Message(User, userMessage)], store, Plans(attempts), interruptAt, [], timestamp);
  }

  /** An answered turn answers with the first attempt that did not fail. */
  lemma ChatAnsweredFirst(
    h: History, store: Store, userMessage: string, attempts: seq<Attempt>,
    interruptAt: Option<nat>, timestamp: string)
    requires |attempts| == MaxRetries
    ensures var r := Chat(h, store, userMessage, attempts, interruptAt, timestamp);
      r.outcome.Answered? ==>
        && r.outcome.attempt < |attempts|
        && !attempts[r.outcome.attempt].raises
        && forall l :: 0 <= l < r.outcome.attempt ==> attempts[l].raises
  {
    TryAnsweredFirst(0, h + [Message(User, userMessage)], store, Plans(attempts), interruptAt, [], timestamp);
  }

  /**
   * An answered turn returns the parse of the answering reply: the user
   * message and that reply join the history, which is pruned, and the
   * reply's memory is stored.
   */
  lemma ChatAnswered(
    h: History, store: Store, userMessage: string, attempts: seq<Attempt>,
    interruptAt: Option<nat>, timestamp: string)
    requires |attempts| == MaxRetries
    ensures var r := Chat(h, store, userMessage, attempts, interruptAt, timestamp);
      r.outcome.Answered? ==>
        && r.outcome.attempt < |attempts|
        && var reply := Concat(attempts[r.outcome.attempt].tokens);
        var parsed := ParseResponse(reply);
        && r.history == Prune(h + [Message(User, userMessage), Message(Assistant, reply)])
        && r.answer == parsed.message && r.actions == parsed.actions
        && r.store == Remember(store, parsed.memory, timestamp)
  {
    var withUser := h + [Message(User, userMessage)];
    TryAnsweredReply(0, withUser, store, Plans(attempts), interruptAt, [], timestamp);
    var r := Chat(h, store, userMessage, attempts, interruptAt, timestamp);
    if r.outcome.Answered? {
      AppendTwo(h, Message(User, userMessage), Message(Assistant, Concat(attempts[r.outcome.attempt].tokens)));
    }
  }

  /**
   * A turn speaks only proper utterances, and unless it was interrupted,
   * none of them was the interrupted one.
   */
  lemma ChatSpeaks(
    h: History, store: Store, userMessage: string, attempts: seq<Attempt>,
    interruptAt: Option<nat>, timestamp: string)
    requires |attempts| == MaxRetries
    ensures var r := Chat(h, store, userMessage, attempts, interruptAt, timestamp);
      && AllUtterances(r.spoken)
      && (!r.outcome.Interrupted? ==> !HeardAt(interruptAt, 0, |r.spoken|))
  {
    var withUser := h + [Message(User, userMessage)];
    PlansPrepared(attempts);
    TrySpeaksUtterances(0, withUser, store, Plans(attempts), interruptAt, [], timestamp);
    TryInterrupted(0, withUser, store, Plans(attempts), interruptAt, [], timestamp);
  }

  /** After an answered turn the history holds at most `HistoryLimit` messages; every turn keeps its first. */
  lemma ChatHistoryBounded(
    h: History, store: Store, userMessage: string, attempts: seq<Attempt>,
    interruptAt: Option<nat>, timestamp: string)
    requires |attempts| == MaxRetries
    ensures var r := Chat(h, store, userMessage, attempts, interruptAt, timestamp);
      && (r.outcome.Answered? ==> |r.history| <= HistoryLimit)
      && (h != [] ==> r.history != [] && r.history[0] == h[0])
  {
    var r := Chat(h, store, userMessage, attempts, interruptAt, timestamp);
    var withUser := h + [Message(User, userMessage)];
    if r.outcome.GaveUp? {
      ChatGaveUp(h, store, userMessage, attempts, interruptAt, timestamp);
    } else if r.outcome.Interrupted? {
      ChatInterrupted(h, store, userMessage, attempts, interruptAt, timestamp);
      if h != [] {
        assert withUser[0] == h[0];
      }
    } else {
      ChatAnswered(h, store, userMessage, attempts, interruptAt, timestamp);
      var reply := Concat(attempts[r.outcome.attempt].tokens);
      var grown := h + [Message(User, userMessage), Message(Assistant, reply)];
      assert r.history == Prune(grown);
      if h != [] {
        assert grown[0] == h[0];
      }
    }
  }

  lemma AppendTwo<T>(h: seq<T>, x: T, y: T)
    ensures (h + [x]) + [y] == h + [x, y]
  {
  }
}
