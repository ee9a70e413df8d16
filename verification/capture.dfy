// Capturing an utterance: the microphone's 512-sample reads are re-cut into
// the 30 ms frames the voice-activity detector accepts, a recording stops on
// its time limit or after enough silence, a recording shorter than 0.3 s is
// refused, and a follow-up question is noticed after six speech frames in a
// row. The detector's verdicts and the clock are inputs.

module Capture {
  import opened Wrappers
  import opened Text

  const SampleRate: nat := 16000
  const VadFrameMs: nat := 30
  /** Samples per detector frame: 30 ms at 16 kHz. */
  const VadFrameSamples: nat := SampleRate * VadFrameMs / 1000
  const MaxRecordDuration: real := 8.0
  const MinRecordDuration: real := 0.5
  const SilenceThreshold: real := 1.5
  /** A recording needs at least 0.3 s of audio. */
  const MinSamples: nat := SampleRate * 3 / 10
  const MaxAttempts: nat := 3
  const SpeechFramesThreshold: nat := 6
  const FollowUpWindow: real := 3.0

  // ---------------------------------------------------------------------
  // Detector framing
  // ---------------------------------------------------------------------

  /** The whole detector frames at the front of a sample buffer, in order. */
  function Frames(s: seq<int>): (fs: seq<seq<int>>)
    ensures forall i :: 0 <= i < |fs| ==> |fs[i]| == VadFrameSamples
    decreases |s|
  {
    if |s| < VadFrameSamples then [] else [s[..VadFrameSamples]] + Frames(s[VadFrameSamples..])
  }

  /** The samples left over for the next read. */
  function Leftover(s: seq<int>): (r: seq<int>)
    ensures |r| < VadFrameSamples
    decreases |s|
  {
    if |s| < VadFrameSamples then s else Leftover(s[VadFrameSamples..])
  }

  /** Cutting loses and reorders nothing, and leaves less than a frame over. */
  lemma {:induction false} FramesCover(s: seq<int>)
    ensures Concat(Frames(s)) + Leftover(s) == s
    decreases |s|
  {
    if |s| >= VadFrameSamples {
      var head, tail := s[..VadFrameSamples], s[VadFrameSamples..];
      FramesCover(tail);
      assert Frames(s) == [head] + Frames(tail);
      ConcatCons(head, Frames(tail));
      AppendAssoc(head, Concat(Frames(tail)), Leftover(tail));
      assert head + tail == s;
    } else {
      assert Concat<int>([]) + s == s;
    }
  }

  /** A buffer yields as many frames as it holds whole frames. */
  lemma {:induction false} FramesCount(s: seq<int>)
    ensures |Frames(s)| * VadFrameSamples + |Leftover(s)| == |s|
    decreases |s|
  {
    if |s| >= VadFrameSamples {
      FramesCount(s[VadFrameSamples..]);
    }
  }

  /**
   * One read: the new samples join the buffer and whole frames are taken
   * off its front while at least one frame remains.
   */
  method Rechunk(buffer: seq<int>, pcm: seq<int>) returns (frames: seq<seq<int>>, rest: seq<int>)
    ensures frames == Frames(buffer + pcm) && rest == Leftover(buffer + pcm)
    ensures Concat(frames) + rest == buffer + pcm
    ensures |rest| < VadFrameSamples
  {
    var all := buffer + pcm;
    frames, rest := [], all;
    while |rest| >= VadFrameSamples
      invariant frames + Frames(rest) == Frames(all)
      invariant Leftover(rest) == Leftover(all)
      decreases |rest|
    {
      var frame := rest[..VadFrameSamples];
      assert Frames(rest) == [frame] + Frames(rest[VadFrameSamples..]);
      frames := frames + [frame];
      rest := rest[VadFrameSamples..];
    }
    assert Frames(rest) == [];
    FramesCover(all);
  }

  // ---------------------------------------------------------------------
  // Recording
  // ---------------------------------------------------------------------

  /**
   * One pass of the recording loop: the time since the start, the samples
   * read, and whether a detector frame completed in this pass held speech.
   */
  datatype Pass = Pass(at: real, pcm: seq<int>, speech: bool)

  datatype Stop = MaxTime | Silence

  /** The audio kept and why the loop ended; `None` while it has not ended yet. */
  datatype Recorded = Recorded(audio: seq<int>, stop: Option<Stop>)

  /**
   * The recording loop from `lastSpeech`, the time of the latest speech
   * (the start, at first). The limit is checked before a read, silence after it.
   */
  function Record(passes: seq<Pass>, lastSpeech: real): (r: Recorded)
    decreases |passes|
  {
    if passes == [] then Recorded([], None)
    else
      var p := passes[0];
      if p.at >= MaxRecordDuration then Recorded([], Some(MaxTime))
      else
        var last := if p.speech then p.at else lastSpeech;
        if p.at >= MinRecordDuration && p.at - last >= SilenceThreshold then Recorded(p.pcm, Some(Silence))
        else
          var r := Record(passes[1..], last);
          Recorded(p.pcm + r.audio, r.stop)
  }

  /** No recording runs past the time limit: a pass at or beyond it ends the loop before reading. */
  lemma {:induction false} RecordEndsByLimit(passes: seq<Pass>, lastSpeech: real)
    requires exists k :: 0 <= k < |passes| && passes[k].at >= MaxRecordDuration
    ensures Record(passes, lastSpeech).stop.Some?
    decreases |passes|
  {
    if passes[0].at < MaxRecordDuration {
      var k :| 0 <= k < |passes| && passes[k].at >= MaxRecordDuration;
      assert passes[1..][k - 1] == passes[k];
      var last := if passes[0].speech then passes[0].at else lastSpeech;
      RecordEndsByLimit(passes[1..], last);
    }
  }

  /** Silence never ends a recording within its first half second. */
  lemma {:induction false} NoEarlySilenceStop(passes: seq<Pass>, lastSpeech: real)
    requires forall k :: 0 <= k < |passes| ==> passes[k].at < MinRecordDuration
    ensures Record(passes, lastSpeech).stop.None?
    decreases |passes|
  {
    if passes != [] {
      assert forall k :: 0 <= k < |passes| - 1 ==> passes[1..][k] == passes[k + 1];
      var last := if passes[0].speech then passes[0].at else lastSpeech;
      NoEarlySilenceStop(passes[1..], last);
    }
  }

  /** While every pass hears speech the recording is never cut for silence. */
  lemma {:induction false} SpeechKeepsRecording(passes: seq<Pass>, lastSpeech: real)
    requires forall k :: 0 <= k < |passes| ==> passes[k].speech
    ensures Record(passes, lastSpeech).stop != Some(Silence)
    decreases |passes|
  {
    if passes != [] && passes[0].at < MaxRecordDuration {
      assert forall k :: 0 <= k < |passes| - 1 ==> passes[1..][k] == passes[k + 1];
      SpeechKeepsRecording(passes[1..], passes[0].at);
    }
  }

  /**
   * A recording in which nobody spoke is cut for silence only once the
   * silence threshold has passed since the start.
   */
  lemma {:induction false} SilentRecordingLength(passes: seq<Pass>)
    requires forall k :: 0 <= k < |passes| ==> !passes[k].speech
    ensures Record(passes, 0.0).stop == Some(Silence) ==>
      exists k :: 0 <= k < |passes| && passes[k].at >= SilenceThreshold
    decreases |passes|
  {
    if passes != [] && passes[0].at < MaxRecordDuration && passes[0].at < SilenceThreshold {
      assert forall k :: 0 <= k < |passes| - 1 ==> passes[1..][k] == passes[k + 1];
      SilentRecordingLength(passes[1..]);
      if Record(passes, 0.0).stop == Some(Silence) {
        var k :| 0 <= k < |passes| - 1 && passes[1..][k].at >= SilenceThreshold;
        assert passes[k + 1].at >= SilenceThreshold;
      }
    } else if passes != [] && passes[0].at >= SilenceThreshold {
      assert passes[0].at >= SilenceThreshold;
    }
  }

  /** The audio kept is what the passes before the end read, in order. */
  lemma {:induction false} RecordKeepsReads(passes: seq<Pass>, lastSpeech: real)
    ensures exists n :: (0 <= n <= |passes| && Record(passes, lastSpeech).audio == Concat(Reads(passes[..n])))
    decreases |passes|
  {
    if passes == [] {
      assert Record(passes, lastSpeech).audio == Concat(Reads(passes[..0]));
    } else {
      var p := passes[0];
      var r := Record(passes, lastSpeech);
      if p.at >= MaxRecordDuration {
        assert r.audio == Concat(Reads(passes[..0]));
      } else {
        var last := if p.speech then p.at else lastSpeech;
        if p.at >= MinRecordDuration && p.at - last >= SilenceThreshold {
          assert Reads(passes[..1]) == [p.pcm] + [];
          ConcatCons(p.pcm, []);
          assert r.audio == Concat(Reads(passes[..1]));
        } else {
          RecordKeepsReads(passes[1..], last);
          var n :| 0 <= n <= |passes[1..]| &&
            Record(passes[1..], last).audio == Concat(Reads(passes[1..][..n]));
          assert Reads(passes[..n + 1]) == [p.pcm] + Reads(passes[1..][..n]);
          ConcatCons(p.pcm, Reads(passes[1..][..n]));
        }
      }
    }
  }

  /**
   * The first pass at or past the 8 s limit settles the recording: what
   * the passes before it recorded is kept, and the stop is the time limit
   * unless silence ended the loop earlier. That pass and every later one
   * read nothing.
   */
  lemma {:induction false} RecordStopsAtLimitPass(passes: seq<Pass>, lastSpeech: real, k: nat)
    requires k < |passes| && passes[k].at >= MaxRecordDuration
    requires forall i :: 0 <= i < k ==> passes[i].at < MaxRecordDuration
    ensures Record(passes, lastSpeech).audio == Record(passes[..k], lastSpeech).audio
    ensures Record(passes, lastSpeech).stop == Some(MaxTime) <==> Record(passes[..k], lastSpeech).stop.None?
    ensures Record(passes, lastSpeech).stop == Some(Silence) <==> Record(passes[..k], lastSpeech).stop == Some(Silence)
    ensures Record(passes, lastSpeech).stop == Some(MaxTime) ==>
      Record(passes, lastSpeech).audio == Concat(Reads(passes[..k]))
    decreases k
  {
    var p := passes[0];
    var last := if p.speech then p.at else lastSpeech;
    if k == 0 {
      assert passes[..k] == [];
    } else if p.at >= MinRecordDuration && p.at - last >= SilenceThreshold {
      assert passes[..k][0] == p;
    } else {
      var tail := passes[1..];
      assert forall i :: 0 <= i < k - 1 ==> tail[i] == passes[i + 1];
      RecordStopsAtLimitPass(tail, last, k - 1);
      assert passes[..k][0] == p && passes[..k][1..] == tail[..k - 1];
      if Record(passes, lastSpeech).stop == Some(MaxTime) {
        assert Reads(passes[..k]) == [p.pcm] + Reads(tail[..k - 1]);
        ConcatCons(p.pcm, Reads(tail[..k - 1]));
      }
    }
  }

  /** The audio kept is what some of the passes before the first one at the limit read. */
  lemma RecordReadsBeforeLimitPass(passes: seq<Pass>, lastSpeech: real, k: nat)
    requires k < |passes| && passes[k].at >= MaxRecordDuration
    requires forall i :: 0 <= i < k ==> passes[i].at < MaxRecordDuration
    ensures exists n :: 0 <= n <= k && Record(passes, lastSpeech).audio == Concat(Reads(passes[..n]))
  {
    RecordStopsAtLimitPass(passes, lastSpeech, k);
    RecordKeepsReads(passes[..k], lastSpeech);
    var m :| 0 <= m <= |passes[..k]| && Record(passes[..k], lastSpeech).audio == Concat(Reads(passes[..k][..m]));
    assert passes[..k][..m] == passes[..m];
  }

  function Reads(passes: seq<Pass>): (rs: seq<seq<int>>)
    ensures |rs| == |passes|
    ensures forall i :: 0 <= i < |passes| ==> rs[i] == passes[i].pcm
  {
    seq(|passes|, i requires 0 <= i < |passes| => passes[i].pcm)
  }

  /**
   * Up to three attempts; the first whose audio reaches the 0.3 s minimum is
   * kept, and too short a recording on the last attempt is a failed capture.
   */
  function RecordWithRetries(attempts: seq<Recorded>): (r: Option<seq<int>>)
    ensures r.Some? ==> |r.value| >= MinSamples
    ensures r.Some? <==> exists i :: 0 <= i < |attempts| && i < MaxAttempts && |attempts[i].audio| >= MinSamples
    ensures r.Some? ==>
      exists i :: 0 <= i < |attempts| && i < MaxAttempts && r.value == attempts[i].audio
        && forall j :: 0 <= j < i ==> |attempts[j].audio| < MinSamples
    decreases |attempts|
  {
    RetriesFrom(attempts, 0)
  }

  function RetriesFrom(attempts: seq<Recorded>, i: nat): (r: Option<seq<int>>)
    requires i <= MaxAttempts
    ensures r.Some? ==> |r.value| >= MinSamples
    ensures r.Some? <==> exists j :: i <= j < |attempts| && j < MaxAttempts && |attempts[j].audio| >= MinSamples
    ensures r.Some? ==> exists j :: i <= j < |attempts| && j < MaxAttempts && r.value == attempts[j].audio
    ensures r.Some? ==>
      exists j :: i <= j < |attempts| && j < MaxAttempts && r.value == attempts[j].audio
        && forall k :: i <= k < j ==> |attempts[k].audio| < MinSamples
    decreases MaxAttempts - i
  {
    if i >= |attempts| || i == MaxAttempts then None
    else if |attempts[i].audio| >= MinSamples then Some(attempts[i].audio)
    else RetriesFrom(attempts, i + 1)
  }

  /** The first attempt long enough, within the three, is the one kept. */
  lemma RetriesKeepFirst(attempts: seq<Recorded>, i: nat)
    requires i < |attempts| && i < MaxAttempts && |attempts[i].audio| >= MinSamples
    requires forall j :: 0 <= j < i ==> |attempts[j].audio| < MinSamples
    ensures RecordWithRetries(attempts) == Some(attempts[i].audio)
  {
  }

  // ---------------------------------------------------------------------
  // Listening for a follow-up
  // ---------------------------------------------------------------------

  /** The verdicts contain `n` speech frames in a row. */
  ghost predicate HasRun(vs: seq<bool>, n: nat) {
    exists i :: RunAt(vs, i, n)
  }

  /** Speech frames `i` to `i + n - 1`. */
  ghost predicate RunAt(vs: seq<bool>, i: int, n: nat) {
    0 <= i && i + n <= |vs| && AllSpeech(vs[i..i + n])
  }

  predicate AllSpeech(vs: seq<bool>) {
    forall j :: 0 <= j < |vs| ==> vs[j]
  }

  /** The scan result: whether the trigger fired, and the run counter. */
  datatype Scanned = Scanned(heard: bool, count: nat)

  /** Count consecutive speech frames from `count`; a non-speech frame resets it. */
  function Scan(count: nat, vs: seq<bool>): Scanned
    decreases |vs|
  {
    if vs == [] then Scanned(false, count)
    else if vs[0] then
      if count + 1 >= SpeechFramesThreshold then Scanned(true, count + 1)
      else Scan(count + 1, vs[1..])
    else Scan(0, vs[1..])
  }

  function Trues(n: nat): (r: seq<bool>)
    ensures |r| == n && AllSpeech(r)
  {
    seq(n, _ => true)
  }

  /**
   * Scanning from a counter below the threshold fires exactly when the
   * frames already counted, followed by the new verdicts, hold six speech
   * frames in a row.
   */
  lemma {:induction false} ScanFindsRun(count: nat, vs: seq<bool>)
    requires count < SpeechFramesThreshold
    ensures Scan(count, vs).heard <==> HasRun(Trues(count) + vs, SpeechFramesThreshold)
    decreases |vs|
  {
    var n := SpeechFramesThreshold;
    var s := Trues(count) + vs;
    if vs == [] {
      assert s == Trues(count);
      NoRunInShort(s, n);
    } else if vs[0] {
      if count + 1 >= n {
        assert RunAt(s, 0, n) by {
          assert forall j :: 0 <= j < n ==> s[j] == if j < count then true else vs[j - count];
        }
      } else {
        ScanFindsRun(count + 1, vs[1..]);
        assert Trues(count + 1) + vs[1..] == s by {
          assert forall j :: 0 <= j < |s| ==> s[j] == if j < count then true else vs[j - count];
        }
      }
    } else {
      ScanFindsRun(0, vs[1..]);
      assert Trues(0) + vs[1..] == vs[1..];
      RunAfterBreak(Trues(count), vs[1..], n);
      assert s == Trues(count) + [false] + vs[1..] by {
        assert vs == [false] + vs[1..];
      }
    }
  }

  lemma NoRunInShort(s: seq<bool>, n: nat)
    requires |s| < n
    ensures !HasRun(s, n)
  {
  }

  lemma RunMember(vs: seq<bool>, i: int, n: nat, k: int)
    requires RunAt(vs, i, n) && i <= k < i + n
    ensures vs[k]
  {
    assert vs[i..i + n][k - i] == vs[k];
  }

  /** A run cannot cross a non-speech frame, and the part before it is too short for one. */
  lemma RunAfterBreak(a: seq<bool>, b: seq<bool>, n: nat)
    requires |a| < n
    ensures HasRun(a + [false] + b, n) <==> HasRun(b, n)
  {
    var s := a + [false] + b;
    if HasRun(s, n) {
      var i :| RunAt(s, i, n);
      if i <= |a| {
        RunMember(s, i, n, |a|);
        assert false;
      } else {
        assert s[i..i + n] == b[i - |a| - 1..i - |a| - 1 + n];
        assert RunAt(b, i - |a| - 1, n);
      }
    }
    if HasRun(b, n) {
      var i :| RunAt(b, i, n);
      assert s[|a| + 1 + i..|a| + 1 + i + n] == b[i..i + n];
      assert RunAt(s, |a| + 1 + i, n);
    }
  }

  /** One pass of the follow-up window: its time and the verdicts of the frames it completed. */
  datatype Listened = Listened(at: real, verdicts: seq<bool>)

  /** Whether speech continues within the window; the counter runs across passes. */
  function ListenForFollowUp(passes: seq<Listened>, count: nat): bool
    decreases |passes|
  {
    if passes == [] || passes[0].at >= FollowUpWindow then false
    else
      var s := Scan(count, passes[0].verdicts);
      s.heard || ListenForFollowUp(passes[1..], s.count)
  }

  /**
   * The verdicts of the frames completed before the window closed: the
   * passes that started within it, in order.
   */
  function InWindow(passes: seq<Listened>): (vs: seq<bool>)
    ensures passes == [] || passes[0].at >= FollowUpWindow ==> vs == []
    decreases |passes|
  {
    if passes == [] || passes[0].at >= FollowUpWindow then []
    else passes[0].verdicts + InWindow(passes[1..])
  }

  /** Scanning two stretches of verdicts is scanning the first, then the second from where it stopped. */
  lemma {:induction false} ScanAppend(count: nat, a: seq<bool>, b: seq<bool>)
    requires count < SpeechFramesThreshold
    ensures !Scan(count, a).heard ==> Scan(count, a).count < SpeechFramesThreshold
    ensures Scan(count, a + b) == if Scan(count, a).heard then Scan(count, a) else Scan(Scan(count, a).count, b)
    decreases |a|
  {
    if a == [] {
      assert a + b == b;
    } else {
      assert (a + b)[1..] == a[1..] + b;
      if a[0] {
        if count + 1 < SpeechFramesThreshold {
          ScanAppend(count + 1, a[1..], b);
        }
      } else {
        ScanAppend(0, a[1..], b);
      }
    }
  }

  /** The counter carried across passes makes the listener one scan of the whole window. */
  lemma {:induction false} ListenScansWindow(passes: seq<Listened>, count: nat)
    requires count < SpeechFramesThreshold
    ensures ListenForFollowUp(passes, count) == Scan(count, InWindow(passes)).heard
    decreases |passes|
  {
    if passes != [] && passes[0].at < FollowUpWindow {
      var v := passes[0].verdicts;
      ScanAppend(count, v, InWindow(passes[1..]));
      if !Scan(count, v).heard {
        ListenScansWindow(passes[1..], Scan(count, v).count);
      }
    }
  }

  /**
   * A follow-up is heard exactly when six speech frames in a row arrive
   * within the window, however the frames are split across reads.
   */
  lemma FollowUpHeardIffRun(passes: seq<Listened>)
    ensures ListenForFollowUp(passes, 0) <==> HasRun(InWindow(passes), SpeechFramesThreshold)
  {
    var w := InWindow(passes);
    ListenScansWindow(passes, 0);
    ScanFindsRun(0, w);
    assert Trues(0) + w == w;
  }
}
