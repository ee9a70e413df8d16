/**
 * The entity memory: a map from entity name to its observation list, the
 * per-entity cap applied on every addition, and the rendering of the most
 * recent observations of four priority entities into the system prompt.
 * Loading and saving the JSON file is left to the caller: every operation
 * here maps one store value to the next.
 */
module MemoryStore {
  import opened Text
  import opened Entities

  const MaxObservationsPerEntity := 20
  const MaxObservationsInContext := 15
  /** How many of an entity's most recent observations the prompt shows. */
  const RecentPerEntity := 5

  datatype Observation = Observation(content: string, timestamp: string)

  type Store = map<string, seq<Observation>>

  /** The empty store a missing or unreadable memory file yields. */
  const EmptyStore: Store := map[]

  /** The observations of `entity`, or none when it has no entry. */
  function ObservationsOf(m: Store, entity: string): seq<Observation> {
    if entity in m then m[entity] else []
  }

  /** A list within the cap whose contents are all non-empty and stripped. */
  predicate WellFormedList(obs: seq<Observation>) {
    |obs| <= MaxObservationsPerEntity
    && forall k :: 0 <= k < |obs| ==> obs[k].content != [] && IsStripped(obs[k].content)
  }

  /** Every stored list is well formed. */
  predicate WellFormed(m: Store) {
    forall e :: e in m ==> WellFormedList(m[e])
  }

  /** The pruning step: a list longer than 20 keeps only its newest 20. */
  function Cap(obs: seq<Observation>): (r: seq<Observation>)
    ensures |r| == (if |obs| < MaxObservationsPerEntity then |obs| else MaxObservationsPerEntity)
    ensures r == obs[|obs| - |r|..]
  {
    if |obs| > MaxObservationsPerEntity then obs[|obs| - MaxObservationsPerEntity..] else obs
  }

  /** Appends `o` to the entity's list, creating the entity if needed, then prunes the list. */
  function Append(m: Store, entity: string, o: Observation): (r: Store)
    ensures entity in r && r == m[entity := r[entity]]
    ensures r[entity] == Cap(ObservationsOf(m, entity) + [o])
  {
    m[entity := Cap(ObservationsOf(m, entity) + [o])]
  }

  /**
   * Appends the stripped observation to the entity's list, creating the
   * entity if needed, then prunes the list. An observation that strips to
   * nothing changes nothing.
   */
  function AddObservation(m: Store, entity: string, observation: string, timestamp: string): (r: Store)
    ensures Strip(observation) == [] ==> r == m
    ensures Strip(observation) != [] ==>
      && entity in r && r == m[entity := r[entity]]
      && r[entity] == Cap(ObservationsOf(m, entity) + [Observation(Strip(observation), timestamp)])
  {
    var content := Strip(observation);
    if content == [] then m
    else Append(m, entity, Observation(content, timestamp))
  }

  /**
   * Appending then pruning keeps the new observation as the newest one,
   * preceded by the newest of the earlier ones, and never grows a full list.
   */
  lemma AppendCapped(before: seq<Observation>, o: Observation)
    ensures var kept := Cap(before + [o]);
      && |kept| == (if |before| >= MaxObservationsPerEntity then MaxObservationsPerEntity else |before| + 1)
      && kept[|kept| - 1] == o
      && kept[..|kept| - 1] == before[|before| - (|kept| - 1)..]
  {
    var obs := before + [o];
    var kept := Cap(obs);
    assert kept == obs[|obs| - |kept|..];
    assert kept[..|kept| - 1] == obs[|obs| - |kept|..|obs| - 1];
    assert obs[..|obs| - 1] == before;
  }

  /** Appending a stripped non-empty content and pruning keeps a list well formed. */
  lemma AppendKeepsWellFormed(before: seq<Observation>, o: Observation)
    requires WellFormedList(before) && o.content != [] && IsStripped(o.content)
    ensures WellFormedList(Cap(before + [o]))
  {
    var obs := before + [o];
    var kept := Cap(obs);
    assert forall k :: 0 <= k < |obs| ==> obs[k].content != [] && IsStripped(obs[k].content) by {
      assert forall k :: 0 <= k < |before| ==> obs[k] == before[k];
    }
    assert forall k :: 0 <= k < |kept| ==> kept[k] == obs[|obs| - |kept| + k];
  }

  /** Replacing one entity's list by a well-formed list keeps the store well formed. */
  lemma UpdateKeepsWellFormed(m: Store, entity: string, list: seq<Observation>)
    requires WellFormed(m) && WellFormedList(list)
    ensures WellFormed(m[entity := list])
  {
  }

  /** Adding keeps the store well formed. */
  lemma AddObservationKeepsWellFormed(m: Store, entity: string, observation: string, timestamp: string)
    requires WellFormed(m)
    ensures WellFormed(AddObservation(m, entity, observation, timestamp))
  {
    var content := Strip(observation);
    if content != [] {
      var o := Observation(content, timestamp);
      AppendKeepsWellFormed(ObservationsOf(m, entity), o);
      UpdateKeepsWellFormed(m, entity, Cap(ObservationsOf(m, entity) + [o]));
    }
  }

  // ---------------------------------------------------------------------
  // Prompt rendering
  // ---------------------------------------------------------------------

  /** The entities the prompt shows, in order, with their section headers. */
  const Priority: seq<(string, string)> := [
    (Leon, "Du minns om Leon:"),
    (Self, "Du minns om dig själv:"),
    (Environment, "Du minns om rummet:"),
    (General, "Du minns:")
  ]

  /** One prompt section: the priority rank of its entity (which fixes its header) and its bullet texts. */
  datatype Section = Section(rank: nat, bullets: seq<string>)

  /** The contents of the newest five of `obs`: what `observations[-5:]` shows. */
  function RecentOf(obs: seq<Observation>): (r: seq<string>)
    ensures |r| == (if |obs| < RecentPerEntity then |obs| else RecentPerEntity)
    ensures forall k :: 0 <= k < |r| ==> r[k] == obs[|obs| - |r| + k].content
  {
    var n := if |obs| < RecentPerEntity then |obs| else RecentPerEntity;
    seq(n, k requires 0 <= k < n => obs[|obs| - n + k].content)
  }

  function Recent(m: Store, entity: string): seq<string> {
    RecentOf(ObservationsOf(m, entity))
  }

  function SumBullets(ss: seq<Section>): nat {
    if ss == [] then 0 else |ss[0].bullets| + SumBullets(ss[1..])
  }

  /** What the prompt can show: the recent contents of each priority entity, in priority order. */
  type View = seq<seq<string>>

  function PromptView(m: Store): (v: View)
    ensures |v| == |Priority|
  {
    seq(|Priority|, k requires 0 <= k < |Priority| => Recent(m, Priority[k].0))
  }

  /** The first `n` elements of `s`, or all of `s` when it is shorter. */
  function Take<T>(s: seq<T>, n: nat): (r: seq<T>)
    ensures |r| == (if |s| <= n then |s| else n) && r == s[..|r|]
  {
    if |s| <= n then s else s[..n]
  }

  /** A section of a rank from `k` on, showing a non-empty prefix of that rank's recent contents. */
  predicate Placed(view: View, k: nat, s: Section) {
    k <= s.rank < |view| && s.bullets != [] && s.bullets <= view[s.rank]
  }

  /**
   * The sections built from priority rank `k` on, after `total` bullets
   * have been emitted: an entity with nothing to show is skipped, each
   * other one contributes its recent contents until the running total
   * reaches 15, at which point rendering stops.
   */
  function Build(view: View, k: nat, total: nat): seq<Section>
    requires k <= |view| && total < MaxObservationsInContext
    decreases |view| - k
  {
    if k == |view| then []
    else
      var recent := view[k];
      if recent == [] then Build(view, k + 1, total)
      else
        var taken := Take(recent, MaxObservationsInContext - total);
        if total + |taken| >= MaxObservationsInContext then [Section(k, taken)]
        else [Section(k, taken)] + Build(view, k + 1, total + |taken|)
  }

  /** A rank with nothing to show is skipped. */
  lemma BuildSkip(view: View, k: nat, total: nat)
    requires k < |view| && total < MaxObservationsInContext
    requires view[k] == []
    ensures Build(view, k, total) == Build(view, k + 1, total)
  {
  }

  /** A rank that reaches the cap is cut there and ends the sections. */
  lemma BuildCut(view: View, k: nat, total: nat)
    requires k < |view| && total < MaxObservationsInContext
    requires view[k] != [] && total + |view[k]| >= MaxObservationsInContext
    ensures Build(view, k, total) == [Section(k, Take(view[k], MaxObservationsInContext - total))]
  {
  }

  /** A rank that stays under the cap is shown whole, before the ranks after it. */
  lemma BuildWhole(view: View, k: nat, total: nat)
    requires k < |view| && total < MaxObservationsInContext
    requires view[k] != [] && total + |view[k]| < MaxObservationsInContext
    ensures Build(view, k, total) == [Section(k, view[k])] + Build(view, k + 1, total + |view[k]|)
  {
  }

  /** The sections never exceed the cap, each shows part of its own rank, and ranks strictly increase. */
  lemma {:induction false} BuildPlaced(view: View, k: nat, total: nat)
    requires k <= |view| && total < MaxObservationsInContext
    ensures total + SumBullets(Build(view, k, total)) <= MaxObservationsInContext
    ensures forall i :: 0 <= i < |Build(view, k, total)| ==> Placed(view, k, Build(view, k, total)[i])
    ensures forall i, j :: 0 <= i < j < |Build(view, k, total)| ==> Build(view, k, total)[i].rank < Build(view, k, total)[j].rank
    decreases |view| - k
  {
    if k < |view| {
      if view[k] == [] {
        BuildPlaced(view, k + 1, total);
        BuildSkip(view, k, total);
      } else if total + |view[k]| < MaxObservationsInContext {
        BuildPlaced(view, k + 1, total + |view[k]|);
        ConsPlaced(view, k, Section(k, view[k]), Build(view, k + 1, total + |view[k]|));
        BuildWhole(view, k, total);
      } else {
        BuildCut(view, k, total);
      }
    }
  }

  /** A section of rank `k` in front of well-placed sections of later ranks keeps them well placed and ordered. */
  lemma ConsPlaced(view: View, k: nat, s: Section, rest: seq<Section>)
    requires Placed(view, k, s) && s.rank == k
    requires forall i :: 0 <= i < |rest| ==> Placed(view, k + 1, rest[i])
    requires forall i, j :: 0 <= i < j < |rest| ==> rest[i].rank < rest[j].rank
    ensures SumBullets([s] + rest) == |s.bullets| + SumBullets(rest)
    ensures forall i :: 0 <= i < |[s] + rest| ==> Placed(view, k, ([s] + rest)[i])
    ensures forall i, j :: 0 <= i < j < |[s] + rest| ==> ([s] + rest)[i].rank < ([s] + rest)[j].rank
  {
    var r := [s] + rest;
    assert r[1..] == rest;
    assert forall i :: 1 <= i < |r| ==> r[i] == rest[i - 1];
  }

  /** The prompt's sections from rank `k` on, with what `Build` guarantees of them. */
  function SectionsFrom(view: View, k: nat, total: nat): (r: seq<Section>)
    requires |view| == |Priority| && k <= |Priority| && total < MaxObservationsInContext
    ensures total + SumBullets(r) <= MaxObservationsInContext
    ensures forall i :: 0 <= i < |r| ==> Placed(view, k, r[i])
    ensures forall i, j :: 0 <= i < j < |r| ==> r[i].rank < r[j].rank
  {
    BuildPlaced(view, k, total);
    Build(view, k, total)
  }

  /** One section as lines: the header of its rank, then one "- " bullet per observation. */
  function SectionLines(s: Section): seq<string>
    requires s.rank < |Priority|
  {
    [Priority[s.rank].1] + seq(|s.bullets|, i requires 0 <= i < |s.bullets| => "- " + s.bullets[i])
  }

  /** Every section belongs to a priority rank. */
  predicate Ranked(ss: seq<Section>) {
    forall i :: 0 <= i < |ss| ==> ss[i].rank < |Priority|
  }

  function RenderSections(ss: seq<Section>): string
    requires Ranked(ss)
  {
    Join(seq(|ss|, i requires 0 <= i < |ss| => Join(SectionLines(ss[i]), "\n")), "\n\n")
  }

  /** The memory block of the system prompt; empty for an empty store. */
  function FormatMemories(m: Store): string {
    if |m| == 0 then "" else RenderSections(SectionsFrom(PromptView(m), 0, 0))
  }

  /** No priority entity from rank `k` on has anything to show. */
  predicate NothingFrom(view: View, k: nat) {
    forall j :: k <= j < |view| ==> view[j] == []
  }

  /** There are no sections from rank `k` on exactly when no entity from rank `k` on has observations. */
  lemma {:induction false} SectionsEmptyIff(view: View, k: nat, total: nat)
    requires |view| == |Priority| && k <= |Priority| && total < MaxObservationsInContext
    ensures SectionsFrom(view, k, total) == [] <==> NothingFrom(view, k)
    decreases |Priority| - k
  {
    if k < |Priority| {
      if view[k] == [] {
        SectionsEmptyIff(view, k + 1, total);
        assert SectionsFrom(view, k, total) == SectionsFrom(view, k + 1, total);
        assert NothingFrom(view, k) <==> NothingFrom(view, k + 1);
      } else {
        assert SectionsFrom(view, k, total) != [];
        assert !NothingFrom(view, k);
      }
    }
  }

  /** The rendered prompt is empty exactly when no priority entity has an observation. */
  lemma FormatEmptyIff(m: Store)
    ensures FormatMemories(m) == [] <==> NothingFrom(PromptView(m), 0)
  {
    if |m| == 0 {
      EmptyStoreShowsNothing(m);
    } else {
      SectionsEmptyIff(PromptView(m), 0, 0);
      SectionsRenderEmptyIff(PromptView(m));
    }
  }

  lemma SectionsRenderEmptyIff(view: View)
    requires |view| == |Priority|
    ensures RenderSections(SectionsFrom(view, 0, 0)) == [] <==> SectionsFrom(view, 0, 0) == []
  {
    RenderNonEmpty(SectionsFrom(view, 0, 0));
  }

  lemma HeaderNonEmpty(k: nat)
    requires k < |Priority|
    ensures Priority[k].1 != []
  {
  }

  lemma EmptyStoreShowsNothing(m: Store)
    requires |m| == 0
    ensures NothingFrom(PromptView(m), 0)
  {
    var view := PromptView(m);
    forall k | 0 <= k < |view| ensures view[k] == [] {
      assert Priority[k].0 !in m;
    }
  }

  /** Sections render to a non-empty text: every section has a header. */
  lemma RenderNonEmpty(ss: seq<Section>)
    requires Ranked(ss)
    ensures RenderSections(ss) == [] <==> ss == []
  {
    if ss != [] {
      HeaderNonEmpty(ss[0].rank);
      var parts := seq(|ss|, i requires 0 <= i < |ss| => Join(SectionLines(ss[i]), "\n"));
      JoinFirstNonEmpty(SectionLines(ss[0]), "\n");
      JoinFirstNonEmpty(parts, "\n\n");
    }
  }

  /**
   * Stores that agree on the recent observations of the priority entities
   * render the same prompt: older observations and every other entity,
   * including capitalised free-form tags, never reach it.
   */
  lemma FormatDependsOnlyOnView(m: Store, m': Store)
    requires PromptView(m) == PromptView(m')
    ensures FormatMemories(m) == FormatMemories(m')
  {
    FormatEmptyIff(m);
    FormatEmptyIff(m');
    if |m| != 0 && |m'| != 0 {
    } else if |m| == 0 && |m'| != 0 {
      assert FormatMemories(m') == [];
    } else if |m| != 0 && |m'| == 0 {
      assert FormatMemories(m) == [];
    }
  }

  /** A join whose first part is non-empty is non-empty. */
  lemma JoinFirstNonEmpty(parts: seq<string>, sep: string)
    requires |parts| >= 1 && parts[0] != []
    ensures Join(parts, sep) != []
  {
  }

  /**
   * With five observations each for Leon, the robot itself and the room,
   * the cap of 15 is reached after the third section and general
   * memories are not shown at all.
   */
  lemma FullStoreOmitsGeneral(m: Store)
    requires forall k :: 0 <= k < 3 ==> |ObservationsOf(m, Priority[k].0)| >= RecentPerEntity
    ensures var ss := SectionsFrom(PromptView(m), 0, 0);
      |ss| == 3 && (forall i :: 0 <= i < 3 ==> ss[i].rank == i && |ss[i].bullets| == RecentPerEntity)
  {
    var view := PromptView(m);
    assert |view[0]| == 5 && |view[1]| == 5 && |view[2]| == 5;
    var s2 := SectionsFrom(view, 2, 10);
    assert |s2| == 1;
    var s1 := SectionsFrom(view, 1, 5);
    assert s1 == [s1[0]] + s2;
  }

  // ---------------------------------------------------------------------
  // What the prompt shows, against a reference: the recent observations of
  // the priority entities laid end to end and cut after the first 15
  // ---------------------------------------------------------------------

  /** The bullets of the sections, in order. */
  function Bullets(ss: seq<Section>): seq<string> {
    if ss == [] then [] else ss[0].bullets + Bullets(ss[1..])
  }

  /** Some section belongs to priority rank `j`. */
  predicate HasSection(ss: seq<Section>, j: nat) {
    exists i :: 0 <= i < |ss| && ss[i].rank == j
  }

  lemma BulletsCons(s: Section, rest: seq<Section>)
    ensures Bullets([s] + rest) == s.bullets + Bullets(rest)
  {
    assert ([s] + rest)[1..] == rest;
  }

  lemma TakeAppend<T>(a: seq<T>, b: seq<T>, n: nat)
    ensures |a| < n ==> Take(a + b, n) == a + Take(b, n - |a|)
    ensures |a| >= n ==> Take(a + b, n) == Take(a, n)
  {
    if |a| < n {
      assert (a + b)[..|a|] == a;
    } else {
      assert (a + b)[..n] == a[..n];
    }
  }

  lemma ConcatFrom(view: View, k: nat, j: nat)
    requires k < j <= |view|
    ensures Concat(view[k..j]) == view[k] + Concat(view[k + 1..j])
  {
    assert view[k..j][1..] == view[k + 1..j];
  }

  /**
   * The bullets shown, in order, are the first 15 of the recent
   * observations of the priority entities laid end to end (after `total`
   * bullets, the first `15 - total`).
   */
  lemma SectionsShowFirstBullets(view: View, k: nat, total: nat)
    requires |view| == |Priority| && k <= |Priority| && total < MaxObservationsInContext
    ensures Bullets(SectionsFrom(view, k, total)) == Take(Concat(view[k..]), MaxObservationsInContext - total)
  {
    BuildShowsFirstBullets(view, k, total);
  }

  /**
   * For a whole store: the prompt's bullets, section after section, are
   * the first 15 of the recent observations of Leon, the robot itself,
   * the room and general memories laid end to end.
   */
  lemma PromptShowsFirstFifteen(m: Store)
    ensures Bullets(SectionsFrom(PromptView(m), 0, 0)) == Take(Concat(PromptView(m)), MaxObservationsInContext)
  {
    var view := PromptView(m);
    SectionsShowFirstBullets(view, 0, 0);
    assert view[0..] == view;
  }

  lemma {:induction false} BuildShowsFirstBullets(view: View, k: nat, total: nat)
    requires k <= |view| && total < MaxObservationsInContext
    ensures Bullets(Build(view, k, total)) == Take(Concat(view[k..]), MaxObservationsInContext - total)
    decreases |view| - k
  {
    if k == |view| {
      assert view[k..] == [];
    } else {
      var recent := view[k];
      var n := MaxObservationsInContext - total;
      ConcatTail(view, k);
      TakeAppend(recent, Concat(view[k + 1..]), n);
      if recent == [] {
        BuildShowsFirstBullets(view, k + 1, total);
        BuildSkip(view, k, total);
        assert recent + Concat(view[k + 1..]) == Concat(view[k + 1..]);
      } else if total + |recent| < MaxObservationsInContext {
        BuildShowsFirstBullets(view, k + 1, total + |recent|);
        BulletsCons(Section(k, recent), Build(view, k + 1, total + |recent|));
        BuildWhole(view, k, total);
      } else {
        BulletsCons(Section(k, Take(recent, n)), []);
        BuildCut(view, k, total);
        assert Take(recent, n) + [] == Take(recent, n);
      }
    }
  }

  lemma ConcatTail(view: View, k: nat)
    requires k < |view|
    ensures Concat(view[k..]) == view[k] + Concat(view[k + 1..])
  {
    ConcatFrom(view, k, |view|);
    assert view[k..|view|] == view[k..] && view[k + 1..|view|] == view[k + 1..];
  }

  /**
   * Rank `j` gets a section exactly when its entity has something to show
   * and fewer than 15 bullets precede it.
   */
  lemma SectionsRankPresent(view: View, k: nat, total: nat)
    requires |view| == |Priority| && k <= |Priority| && total < MaxObservationsInContext
    ensures forall j :: k <= j < |Priority| ==>
      (HasSection(SectionsFrom(view, k, total), j) <==>
        view[j] != [] && total + |Concat(view[k..j])| < MaxObservationsInContext)
  {
    BuildRankPresent(view, k, total);
  }

  /**
   * The section of rank `j` shows the first of that entity's recent
   * observations, as many as still fit under 15 after the bullets of the
   * ranks before it.
   */
  lemma SectionsRankContents(view: View, k: nat, total: nat)
    requires |view| == |Priority| && k <= |Priority| && total < MaxObservationsInContext
    ensures var r := SectionsFrom(view, k, total);
      forall i :: 0 <= i < |r| ==>
        && total + |Concat(view[k..r[i].rank])| < MaxObservationsInContext
        && r[i].bullets == Take(view[r[i].rank], MaxObservationsInContext - (total + |Concat(view[k..r[i].rank])|))
  {
    BuildRankContents(view, k, total);
  }

  /** The bullets before rank `j`, counted from rank `k` and an initial `total`, stay under the cap. */
  predicate RoomBefore(view: View, k: nat, total: nat, j: nat)
    requires k <= j <= |view|
  {
    total + |Concat(view[k..j])| < MaxObservationsInContext
  }

  /** Section `s` shows as many of its rank's recent observations as fit after the ranks from `k` before it. */
  predicate ShowsWhatFits(view: View, k: nat, total: nat, s: Section)
  {
    k <= s.rank < |view| && RoomBefore(view, k, total, s.rank)
      && s.bullets == Take(view[s.rank], MaxObservationsInContext - (total + |Concat(view[k..s.rank])|))
  }

  lemma {:induction false} BuildRankPresent(view: View, k: nat, total: nat)
    requires k <= |view| && total < MaxObservationsInContext
    ensures forall j :: k <= j < |view| ==>
      (HasSection(Build(view, k, total), j) <==> view[j] != [] && RoomBefore(view, k, total, j))
    decreases |view| - k
  {
    if k < |view| {
      if view[k] == [] {
        BuildPlaced(view, k + 1, total);
        BuildRankPresent(view, k + 1, total);
        PresentSkip(view, k, total, Build(view, k + 1, total));
        BuildSkip(view, k, total);
      } else if total + |view[k]| >= MaxObservationsInContext {
        PresentCut(view, k, total);
        BuildCut(view, k, total);
      } else {
        var rest := Build(view, k + 1, total + |view[k]|);
        BuildPlaced(view, k + 1, total + |view[k]|);
        BuildRankPresent(view, k + 1, total + |view[k]|);
        PresentCons(view, k, total, rest);
        BuildWhole(view, k, total);
      }
    }
  }

  lemma PresentSkip(view: View, k: nat, total: nat, rest: seq<Section>)
    requires k < |view| && view[k] == []
    requires forall i :: 0 <= i < |rest| ==> rest[i].rank > k
    requires forall j :: k + 1 <= j < |view| ==>
      (HasSection(rest, j) <==> view[j] != [] && RoomBefore(view, k + 1, total, j))
    ensures forall j :: k <= j < |view| ==>
      (HasSection(rest, j) <==> view[j] != [] && RoomBefore(view, k, total, j))
  {
    forall j | k < j < |view| ensures Concat(view[k..j]) == Concat(view[k + 1..j]) {
      ConcatFrom(view, k, j);
    }
  }

  lemma PresentCut(view: View, k: nat, total: nat)
    requires k < |view| && view[k] != []
    requires total < MaxObservationsInContext <= total + |view[k]|
    ensures forall j :: k <= j < |view| ==>
      (HasSection([Section(k, Take(view[k], MaxObservationsInContext - total))], j) <==>
        view[j] != [] && RoomBefore(view, k, total, j))
  {
    var r := [Section(k, Take(view[k], MaxObservationsInContext - total))];
    assert view[k..k] == [];
    assert r[0].rank == k;
    forall j | k < j < |view| ensures !HasSection(r, j) && !RoomBefore(view, k, total, j) {
      ConcatFrom(view, k, j);
    }
  }

  lemma PresentCons(view: View, k: nat, total: nat, rest: seq<Section>)
    requires k < |view| && view[k] != []
    requires total + |view[k]| < MaxObservationsInContext
    requires forall i :: 0 <= i < |rest| ==> rest[i].rank > k
    requires forall j :: k + 1 <= j < |view| ==>
      (HasSection(rest, j) <==> view[j] != [] && RoomBefore(view, k + 1, total + |view[k]|, j))
    ensures forall j :: k <= j < |view| ==>
      (HasSection([Section(k, view[k])] + rest, j) <==> view[j] != [] && RoomBefore(view, k, total, j))
  {
    SectionsCons(Section(k, view[k]), rest);
    assert view[k..k] == [];
    forall j | k < j < |view| ensures |Concat(view[k..j])| == |view[k]| + |Concat(view[k + 1..j])| {
      ConcatFrom(view, k, j);
    }
  }

  lemma {:induction false} BuildRankContents(view: View, k: nat, total: nat)
    requires k <= |view| && total < MaxObservationsInContext
    ensures forall i :: 0 <= i < |Build(view, k, total)| ==> ShowsWhatFits(view, k, total, Build(view, k, total)[i])
    decreases |view| - k
  {
    if k < |view| {
      if view[k] == [] {
        BuildRankContents(view, k + 1, total);
        ContentsSkip(view, k, total, Build(view, k + 1, total));
        BuildSkip(view, k, total);
      } else if total + |view[k]| >= MaxObservationsInContext {
        assert view[k..k] == [];
        BuildCut(view, k, total);
      } else {
        BuildRankContents(view, k + 1, total + |view[k]|);
        ContentsCons(view, k, total, Build(view, k + 1, total + |view[k]|));
        BuildWhole(view, k, total);
      }
    }
  }

  lemma ContentsSkip(view: View, k: nat, total: nat, rest: seq<Section>)
    requires k < |view| && view[k] == []
    requires forall i :: 0 <= i < |rest| ==> ShowsWhatFits(view, k + 1, total, rest[i])
    ensures forall i :: 0 <= i < |rest| ==> ShowsWhatFits(view, k, total, rest[i])
  {
    forall i | 0 <= i < |rest| ensures ShowsWhatFits(view, k, total, rest[i]) {
      ConcatFrom(view, k, rest[i].rank);
    }
  }

  lemma ContentsCons(view: View, k: nat, total: nat, rest: seq<Section>)
    requires k < |view| && view[k] != []
    requires total + |view[k]| < MaxObservationsInContext
    requires forall i :: 0 <= i < |rest| ==> ShowsWhatFits(view, k + 1, total + |view[k]|, rest[i])
    ensures forall i :: 0 <= i < |[Section(k, view[k])] + rest| ==>
      ShowsWhatFits(view, k, total, ([Section(k, view[k])] + rest)[i])
  {
    var r := [Section(k, view[k])] + rest;
    SectionsCons(Section(k, view[k]), rest);
    assert view[k..k] == [];
    forall i | 1 <= i < |r| ensures ShowsWhatFits(view, k, total, r[i]) {
      ConcatFrom(view, k, rest[i - 1].rank);
    }
  }

  /** The sections of `[s] + rest`: `s` first, then those of `rest` one place later. */
  lemma SectionsCons(s: Section, rest: seq<Section>)
    ensures forall j :: HasSection([s] + rest, j) <==> s.rank == j || HasSection(rest, j)
    ensures forall i :: 1 <= i < |[s] + rest| ==> ([s] + rest)[i] == rest[i - 1]
  {
    var r := [s] + rest;
    forall j ensures HasSection(r, j) <==> s.rank == j || HasSection(rest, j) {
      if HasSection(rest, j) {
        var i :| 0 <= i < |rest| && rest[i].rank == j;
        assert r[i + 1] == rest[i];
      }
      if HasSection(r, j) && s.rank != j {
        var i :| 0 <= i < |r| && r[i].rank == j;
        assert r[i] == rest[i - 1];
      }
      if s.rank == j {
        assert r[0].rank == j;
      }
    }
  }
}
