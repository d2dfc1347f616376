/** The seqlock-protected double buffer as a protocol of atomic steps: one writer, any number of readers,
    and data copied word by word in any order. Steps are interleaved arbitrarily (sequential consistency). */
module Seqlock {
  import opened Wrappers

  type Word = int

  /** The contents of one buffer. */
  type Image = seq<Word>

  /** Where the writer stands between its atomic steps. */
  datatype Writer =
    | Idle
    | Begun // the sequence number has become odd
    | Writing(target: nat) // storing words into buffer `target`
    | Swapping(oldFront: nat) // the front index was loaded for the swap
    | Swapped // the new front index was stored

  /** Where a reader stands: `since` is the number of commits finished when its read began, `after` the
      number of reads that had returned by then. */
  datatype Reader =
    | Outside
    | Reading(since: nat, after: nat, progress: Progress)

  datatype Progress =
    | Looping
    | Loaded(seq1: nat)
    | Copying(seq1: nat, source: nat, copied: map<nat, Word>)

  /** A read that returned: its data, the version its sequence number stands for, and the numbers of commits
      and returned reads at its two ends. */
  datatype Result = Result(reader: nat, data: Image, version: nat, since: nat, until: nat, after: nat)

  /** The shared memory, the threads, and the history: all published versions and all returned reads. */
  datatype State = State(
    sequence: nat, front: nat, buffers: seq<Image>, writer: Writer, readers: map<nat, Reader>,
    versions: seq<Image>, written: seq<seq<(nat, Word)>>, pending: seq<(nat, Word)>, results: seq<Result>)

  datatype Event =
    | BeginIncrement
    | BeginLoadFront
    | StoreWord(i: nat, w: Word)
    | CommitLoadFront
    | CommitStoreFront
    | CommitIncrement
    | Enter(r: nat)
    | LoadSequence(r: nat)
    | LoadFront(r: nat)
    | CopyWord(r: nat, i: nat)
    | CheckSequence(r: nat)

  function Zeros(n: nat): Image { seq(n, _ => 0) }

  /** A buffer of images of `n` words, as constructed. */
  function Init(n: nat): State
  {
    State(0, 0, [Zeros(n), Zeros(n)], Idle, map[], [Zeros(n)], [], [], [])
  }

  function ReaderOf(s: State, r: nat): Reader
  {
    if r in s.readers then s.readers[r] else Outside
  }

  /** The data a reader has copied. */
  function Collected(copied: map<nat, Word>, n: nat): Image
    requires forall i: nat :: i < n ==> i in copied
  {
    seq(n, (i: nat) requires i < n => copied[i])
  }

  /** How many writes have been published. */
  function Commits(s: State): nat { if s.versions == [] then 0 else |s.versions| - 1 }

  /** Which steps the code can take. */
  predicate Enabled(s: State, e: Event, n: nat)
  {
    |s.buffers| == 2 &&
    match e
    case BeginIncrement => s.writer.Idle?
    case BeginLoadFront => s.writer.Begun?
    case StoreWord(i, _) => s.writer.Writing? && s.writer.target < 2 && i < n == |s.buffers[s.writer.target]|
    case CommitLoadFront => s.writer.Writing?
    case CommitStoreFront => s.writer.Swapping? && s.writer.oldFront < 2
    case CommitIncrement => s.writer.Swapped? && s.front < 2
    case Enter(r) => ReaderOf(s, r).Outside?
    case LoadSequence(r) => ReaderOf(s, r).Reading? && ReaderOf(s, r).progress.Looping?
    case LoadFront(r) => ReaderOf(s, r).Reading? && ReaderOf(s, r).progress.Loaded?
    case CopyWord(r, i) =>
      && ReaderOf(s, r).Reading? && ReaderOf(s, r).progress.Copying? && ReaderOf(s, r).progress.source < 2
      && i < n == |s.buffers[ReaderOf(s, r).progress.source]|
    case CheckSequence(r) =>
      && ReaderOf(s, r).Reading? && ReaderOf(s, r).progress.Copying?
      && forall i: nat :: i < n ==> i in ReaderOf(s, r).progress.copied
  }

  function Advance(s: State, r: nat, p: Progress): State
    requires ReaderOf(s, r).Reading?
  {
    s.(readers := s.readers[r := ReaderOf(s, r).(progress := p)])
  }

  function Apply(s: State, e: Event, n: nat): State
    requires Enabled(s, e, n)
  {
    match e
    case BeginIncrement => s.(sequence := s.sequence + 1, writer := Begun, pending := [])
    case BeginLoadFront => s.(writer := Writing(if s.front == 0 then 1 else 0))
    case StoreWord(i, w) =>
      var t := s.writer.target;
      s.(buffers := s.buffers[t := s.buffers[t][i := w]], pending := s.pending + [(i, w)])
    case CommitLoadFront => s.(writer := Swapping(s.front))
    case CommitStoreFront => s.(front := 1 - s.writer.oldFront, writer := Swapped)
    case CommitIncrement =>
      s.(sequence := s.sequence + 1, writer := Idle, versions := s.versions + [s.buffers[s.front]],
         written := s.written + [s.pending])
    case Enter(r) => s.(readers := s.readers[r := Reading(Commits(s), |s.results|, Looping)])
    case LoadSequence(r) => if s.sequence % 2 != 0 then s else Advance(s, r, Loaded(s.sequence))
    case LoadFront(r) =>
      Advance(s, r, Copying(ReaderOf(s, r).progress.seq1, if s.front == 0 then 0 else 1, map[]))
    case CopyWord(r, i) =>
      var p := ReaderOf(s, r).progress;
      Advance(s, r, p.(copied := p.copied[i := s.buffers[p.source][i]]))
    case CheckSequence(r) =>
      var v := ReaderOf(s, r);
      var p := v.progress;
      if s.sequence != p.seq1 then Advance(s, r, Looping)
      else
        var result := Result(r, Collected(p.copied, n), p.seq1 / 2, v.since, Commits(s), v.after);
        s.(readers := s.readers[r := Outside], results := s.results + [result])
  }

  /** The state after a sequence of steps from `s`; none if one of them was not possible. */
  function From(s: State, es: seq<Event>, n: nat): Option<State>
  {
    if es == [] then Some(s) else
    var before := From(s, es[..|es| - 1], n);
    if before.Some? && Enabled(before.value, es[|es| - 1], n) then Some(Apply(before.value, es[|es| - 1], n)) else None
  }

  function After(n: nat, es: seq<Event>): Option<State> { From(Init(n), es, n) }

  // ---- The invariant -------------------------------------------------------------

  /** The image a write begins with: the version before the current one. */
  function Base(s: State): Image
    requires s.versions != []
  {
    s.versions[if Commits(s) == 0 then 0 else Commits(s) - 1]
  }

  /** `image` after word stores. */
  function Overlay(image: Image, stores: seq<(nat, Word)>): (r: Image)
    ensures |r| == |image|
  {
    if stores == [] then image else
    var before := Overlay(image, stores[..|stores| - 1]);
    var last := stores[|stores| - 1];
    if last.0 < |before| then before[last.0 := last.1] else before
  }

  /** The writer's side: which buffer holds which version. */
  ghost predicate WriterInv(s: State, n: nat)
  {
    && s.versions != [] && |s.written| == Commits(s)
    && |s.buffers| == 2 && |s.buffers[0]| == |s.buffers[1]| == n
    && var c := Commits(s);
       var last, back := s.versions[c], c % 2;
       match s.writer
       case Idle => s.sequence == 2 * c && s.front == back && s.buffers[back] == last && s.buffers[1 - back] == Base(s)
       case Begun => s.sequence == 2 * c + 1 && s.front == back && s.buffers[back] == last && s.buffers[1 - back] == Base(s)
                     && s.pending == []
       case Writing(t) => s.sequence == 2 * c + 1 && s.front == back && s.buffers[back] == last && t == 1 - back
                          && s.buffers[1 - back] == Overlay(Base(s), s.pending)
       case Swapping(f) => s.sequence == 2 * c + 1 && s.front == back == f && s.buffers[back] == last
                           && s.buffers[1 - back] == Overlay(Base(s), s.pending)
       case Swapped => s.sequence == 2 * c + 1 && s.front == 1 - back && s.buffers[back] == last
                       && s.buffers[1 - back] == Overlay(Base(s), s.pending)
  }

  /** A reader whose sequence number is still current has copied from the current version only. */
  ghost predicate ReaderInv(s: State, r: nat)
    requires s.versions != [] && |s.buffers| == 2
  {
    var v := ReaderOf(s, r);
    v.Reading? ==>
      && v.since <= Commits(s) && v.after <= |s.results|
      && (!v.progress.Looping? ==> v.progress.seq1 % 2 == 0 && 2 * v.since <= v.progress.seq1 <= s.sequence)
      && (v.progress.Copying? ==>
            && v.progress.source < 2
            && (v.progress.seq1 == s.sequence ==>
                  && v.progress.source == s.front
                  && forall i <- v.progress.copied ::
                       i < |s.versions[Commits(s)]| && v.progress.copied[i] == s.versions[Commits(s)][i]))
  }

  /** A returned read holds one published version, and not an older one than reads that returned before it began. */
  ghost predicate ResultInv(s: State, k: nat)
    requires k < |s.results|
  {
    var x := s.results[k];
    && s.versions != [] && x.since <= x.version == x.until <= Commits(s) && x.data == s.versions[x.version] && x.after <= k
  }

  ghost predicate OrderInv(s: State)
  {
    && (forall r: nat, k :: ReaderOf(s, r).Reading? && 0 <= k < |s.results| && k < ReaderOf(s, r).after ==>
          s.results[k].until <= ReaderOf(s, r).since)
    && (forall j, k :: 0 <= j < k < |s.results| && j < s.results[k].after ==> s.results[j].until <= s.results[k].since)
    && (forall r: nat, k :: 0 <= k < |s.results| && s.results[k].reader == r && ReaderOf(s, r).Reading? ==>
          k < ReaderOf(s, r).after)
    && (forall j, k :: 0 <= j < k < |s.results| && s.results[j].reader == s.results[k].reader ==> j < s.results[k].after)
  }

  ghost predicate HistoryInv(s: State)
    requires s.versions != []
  {
    |s.written| == Commits(s) &&
    forall k :: 0 <= k < |s.written| ==> s.versions[k + 1] == Overlay(s.versions[if k == 0 then 0 else k - 1], s.written[k])
  }

  ghost predicate VersionsInv(s: State, n: nat)
  {
    WriterInv(s, n) && HistoryInv(s) && forall k :: 0 <= k < |s.versions| ==> |s.versions[k]| == n
  }

  ghost predicate Inv(s: State, n: nat)
  {
    && VersionsInv(s, n) && OrderInv(s)
    && (forall r: nat :: ReaderInv(s, r))
    && (forall k :: 0 <= k < |s.results| ==> ResultInv(s, k))
  }

  lemma OverlayStore(image: Image, stores: seq<(nat, Word)>, i: nat, w: Word)
    requires i < |image|
    ensures Overlay(image, stores + [(i, w)]) == Overlay(image, stores)[i := w]
  {
    assert (stores + [(i, w)])[..|stores|] == stores;
  }

  lemma InitInv(n: nat)
    ensures Inv(Init(n), n)
  {}

  predicate IsReaderStep(e: Event) { e.Enter? || e.LoadSequence? || e.LoadFront? || e.CopyWord? || e.CheckSequence? }

  lemma StoreKeepsVersions(s: State, e: Event, n: nat)
    requires VersionsInv(s, n) && Enabled(s, e, n) && e.StoreWord?
    ensures VersionsInv(Apply(s, e, n), n)
  {
    var s' := Apply(s, e, n);
    assert Base(s') == Base(s) && |Base(s)| == n;
    HistoryDepends(s, s');
    assert s'.versions == s.versions && s'.written == s.written;
    StoreExtends(s, e.i, e.w, n);
    hide Apply, HistoryInv, Base, Overlay;
  }

  lemma StoreExtends(s: State, i: nat, w: Word, n: nat)
    requires WriterInv(s, n) && s.writer.Writing? && i < n == |Base(s)|
    ensures WriterInv(Apply(s, StoreWord(i, w), n), n)
  {
    OverlayStore(Base(s), s.pending, i, w);
    hide Overlay;
  }

  lemma HistoryDepends(s: State, t: State)
    requires s.versions != []
    ensures t.versions == s.versions && t.written == s.written ==> HistoryInv(t) == HistoryInv(s)
  {}

  lemma CommitKeepsVersions(s: State, e: Event, n: nat)
    requires VersionsInv(s, n) && Enabled(s, e, n) && e.CommitIncrement?
    ensures VersionsInv(Apply(s, e, n), n)
  {
    hide Overlay;
    var s' := Apply(s, e, n);
    assert s'.versions[Commits(s)] == s.versions[Commits(s)];
  }

  /** A writer step keeps the writer's side in order, and afterwards no sequence number that a reader may have
      loaded before is current. */
  lemma WriterStep(s: State, e: Event, n: nat)
    requires VersionsInv(s, n) && Enabled(s, e, n) && !IsReaderStep(e)
    ensures var s' := Apply(s, e, n);
            && VersionsInv(s', n) && s'.readers == s.readers && s'.results == s.results
            && s.versions <= s'.versions && s.sequence <= s'.sequence
            && forall q: nat :: q % 2 == 0 && q <= s.sequence ==> q != s'.sequence
  {
    if e.StoreWord? {
      StoreKeepsVersions(s, e, n);
    } else if e.CommitIncrement? {
      CommitKeepsVersions(s, e, n);
    }
    hide Overlay, HistoryInv;
  }

  /** The readers' side does not notice a writer step. */
  lemma WriterStepKeepsInv(s: State, e: Event, n: nat)
    requires Inv(s, n) && Enabled(s, e, n) && !IsReaderStep(e)
    ensures Inv(Apply(s, e, n), n)
  {
    WriterStep(s, e, n);
    hide Apply, Enabled, VersionsInv;
    var s' := Apply(s, e, n);
    assert s.versions != [] && |s.buffers| == |s'.buffers| == 2 by { VersionsShape(s, n); VersionsShape(s', n); }
    forall r: nat ensures ReaderInv(s', r) { assert ReaderInv(s, r); }
    forall k | 0 <= k < |s'.results| ensures ResultInv(s', k) { assert ResultInv(s, k); }
    assert forall r: nat :: ReaderOf(s', r) == ReaderOf(s, r);
  }

  lemma VersionsShape(s: State, n: nat)
    requires VersionsInv(s, n)
    ensures s.versions != [] && |s.buffers| == 2
  {}

  /** What a reader step does to the state: the writer's side stays, the other readers stay. */
  lemma ReaderFrame(s: State, e: Event, n: nat)
    requires VersionsInv(s, n) && Enabled(s, e, n) && IsReaderStep(e)
    ensures var s' := Apply(s, e, n);
            && VersionsInv(s', n) && s' == s.(readers := s'.readers, results := s'.results) && s.results <= s'.results
            && (forall r: nat :: r != e.r ==> ReaderOf(s', r) == ReaderOf(s, r))
            && |s'.results| <= |s.results| + 1
            && (|s'.results| == |s.results| + 1 ==> e.CheckSequence? && s'.results[|s.results|].reader == e.r)
  {
    VersionsDepend(s, Apply(s, e, n), n);
    hide VersionsInv;
  }

  /** The writer's invariant does not look at the readers. */
  lemma VersionsDepend(s: State, t: State, n: nat)
    ensures t == s.(readers := t.readers, results := t.results) ==> VersionsInv(t, n) == VersionsInv(s, n)
  {}

  /** How a reader step changes the reader that takes it: a read begins, goes on, or returns. */
  ghost predicate OwnEffect(s: State, e: Event, s': State)
    requires IsReaderStep(e)
  {
    var v, v' := ReaderOf(s, e.r), ReaderOf(s', e.r);
    if |s'.results| > |s.results| then
      var x := s'.results[|s.results|];
      v.Reading? && v'.Outside? && x.reader == e.r && x.since == v.since && x.after == v.after
    else if e.Enter? then v'.Reading? && v'.since == Commits(s) && v'.after == |s.results|
    else v.Reading? && v'.Reading? && v'.since == v.since && v'.after == v.after
  }

  /** A step keeps the invariant of the reader that takes it; a read that returns holds the current version. */
  lemma OwnStep(s: State, e: Event, n: nat)
    requires VersionsInv(s, n) && Enabled(s, e, n) && IsReaderStep(e) && ReaderInv(s, e.r)
    ensures var s' := Apply(s, e, n);
            && s'.versions != [] && |s'.buffers| == 2 && ReaderInv(s', e.r) && OwnEffect(s, e, s')
            && (|s'.results| > |s.results| ==> ResultInv(s', |s.results|))
  {
    hide HistoryInv;
    var p := ReaderOf(s, e.r);
    if e.CheckSequence? && s.sequence == p.progress.seq1 {
      assert |s.versions[Commits(s)]| == n;
      assert Collected(p.progress.copied, n) == s.versions[Commits(s)];
    }
  }

  /** Every step of a reader keeps the invariant. */
  lemma ReaderStepKeepsInv(s: State, e: Event, n: nat)
    requires Inv(s, n) && Enabled(s, e, n) && IsReaderStep(e)
    ensures Inv(Apply(s, e, n), n)
  {
    assert ReaderInv(s, e.r);
    ReaderFrame(s, e, n);
    OwnStep(s, e, n);
    hide Apply, Enabled, VersionsInv;
    var s' := Apply(s, e, n);
    forall r: nat
      ensures ReaderInv(s', r)
    {
      if r != e.r { assert ReaderInv(s, r); }
    }
    forall k | 0 <= k < |s'.results|
      ensures ResultInv(s', k)
    {
      if k < |s.results| { assert ResultInv(s, k); }
    }
    OrderKept(s, e, s');
  }

  lemma OrderKept(s: State, e: Event, s': State)
    requires s.versions != [] && s'.versions == s.versions && |s.buffers| == |s'.buffers| == 2 && IsReaderStep(e) && OrderInv(s)
    requires s.results <= s'.results && |s'.results| <= |s.results| + 1
    requires forall r: nat :: ReaderInv(s, r)
    requires forall k :: 0 <= k < |s.results| ==> ResultInv(s, k)
    requires forall r: nat :: r != e.r ==> ReaderOf(s', r) == ReaderOf(s, r)
    requires OwnEffect(s, e, s')
    ensures OrderInv(s')
  {
    hide ReaderOf;
    assert ReaderInv(s, e.r);
    forall r: nat, k | ReaderOf(s', r).Reading? && 0 <= k < |s'.results| && k < ReaderOf(s', r).after
      ensures s'.results[k].until <= ReaderOf(s', r).since
    {
      assert ReaderInv(s, r);
      assert k < |s.results| ==> ResultInv(s, k);
    }
    forall r: nat, k | 0 <= k < |s'.results| && s'.results[k].reader == r && ReaderOf(s', r).Reading?
      ensures k < ReaderOf(s', r).after
    {
      assert ReaderInv(s, r);
    }
  }

  /** The invariant holds after every interleaving. */
  lemma {:induction false} Reachable(n: nat, es: seq<Event>)
    ensures After(n, es).Some? ==> Inv(After(n, es).value, n)
  {
    if es == [] {
      InitInv(n);
    } else {
      var before, e := After(n, es[..|es| - 1]), es[|es| - 1];
      Reachable(n, es[..|es| - 1]);
      if before.Some? && Enabled(before.value, e, n) {
        if IsReaderStep(e) {
          ReaderStepKeepsInv(before.value, e, n);
        } else {
          WriterStepKeepsInv(before.value, e, n);
        }
      }
    }
  }

  // ---- What readers see ------------------------------------------------------------

  /** No read is torn: in every interleaving, a returned snapshot is one published version, the one its sequence
      number stands for, published before the read returned and not before it began. */
  lemma ReadsAreSnapshots(n: nat, es: seq<Event>, k: nat)
    requires After(n, es).Some? && k < |After(n, es).value.results|
    ensures var s := After(n, es).value;
            var x := s.results[k];
            && x.version < |s.versions| && x.data == s.versions[x.version]
            && x.since <= x.version <= x.until
  {
    Reachable(n, es);
    assert ResultInv(After(n, es).value, k);
  }

  /** A read that began after another had returned never sees an older version. */
  lemma LaterReadsSeeNoOlderVersion(n: nat, es: seq<Event>, j: nat, k: nat)
    requires After(n, es).Some? && j < k < |After(n, es).value.results|
    requires j < After(n, es).value.results[k].after
    ensures After(n, es).value.results[j].version <= After(n, es).value.results[k].version
  {
    Reachable(n, es);
    var s := After(n, es).value;
    assert ResultInv(s, j) && ResultInv(s, k);
  }

  /** The versions one reader sees never go backwards. */
  lemma VersionsNeverGoBack(n: nat, es: seq<Event>, j: nat, k: nat)
    requires After(n, es).Some? && j < k < |After(n, es).value.results|
    requires After(n, es).value.results[j].reader == After(n, es).value.results[k].reader
    ensures After(n, es).value.results[j].version <= After(n, es).value.results[k].version
  {
    Reachable(n, es);
    LaterReadsSeeNoOlderVersion(n, es, j, k);
  }

  /** The back buffer a write begins with is not the current version but the one before it. */
  lemma VersionRecurrence(n: nat, es: seq<Event>, k: nat)
    requires After(n, es).Some? && k < |After(n, es).value.written|
    ensures var s := After(n, es).value;
            && |s.versions| == |s.written| + 1
            && s.versions[k + 1] == Overlay(s.versions[if k == 0 then 0 else k - 1], s.written[k])
  {
    Reachable(n, es);
  }

  /** The last value stored at `i`, if any. */
  function LastStore(stores: seq<(nat, Word)>, i: nat): Option<Word>
  {
    if stores == [] then None
    else if stores[|stores| - 1].0 == i then Some(stores[|stores| - 1].1)
    else LastStore(stores[..|stores| - 1], i)
  }

  lemma {:induction false} OverlayAt(image: Image, stores: seq<(nat, Word)>, i: nat)
    requires i < |image|
    ensures Overlay(image, stores)[i] == if LastStore(stores, i).Some? then LastStore(stores, i).value else image[i]
  {
    if stores != [] {
      OverlayAt(image, stores[..|stores| - 1], i);
    }
  }

  /** A published word is the one last stored by its write; a word the write did not store comes from the version
      before the current one. So a writer that stores a word in every write publishes exactly what it stored,
      and a writer that does not lets older values reappear. */
  lemma PublishedWords(n: nat, es: seq<Event>, k: nat, i: nat)
    requires After(n, es).Some? && k < |After(n, es).value.written| && i < n
    ensures var s := After(n, es).value;
            && |s.versions| == |s.written| + 1
            && (forall v :: 0 <= v < |s.versions| ==> |s.versions[v]| == n)
            && var stored := LastStore(s.written[k], i);
               s.versions[k + 1][i] == if stored.Some? then stored.value else s.versions[if k == 0 then 0 else k - 1][i]
  {
    Reachable(n, es);
    var s := After(n, es).value;
    OverlayAt(s.versions[if k == 0 then 0 else k - 1], s.written[k], i);
  }

  // ---- Undisturbed calls -----------------------------------------------------------

  lemma {:induction false} FromAppend(s: State, a: seq<Event>, b: seq<Event>, n: nat)
    requires From(s, a, n).Some?
    ensures From(s, a + b, n) == From(From(s, a, n).value, b, n)
  {
    if b == [] {
      assert a + b == a;
    } else {
      assert (a + b)[..|a + b| - 1] == a + b[..|b| - 1];
      FromAppend(s, a, b[..|b| - 1], n);
    }
  }

  lemma OneStep(s: State, e: Event, n: nat)
    ensures From(s, [e], n) == if Enabled(s, e, n) then Some(Apply(s, e, n)) else None
  {
    assert [e][..0] == [];
  }

  function StoreEvents(stores: seq<(nat, Word)>): seq<Event>
  {
    if stores == [] then []
    else StoreEvents(stores[..|stores| - 1]) + [StoreWord(stores[|stores| - 1].0, stores[|stores| - 1].1)]
  }

  /** The steps of a write whose closure makes the given stores. */
  function WriteEvents(stores: seq<(nat, Word)>): seq<Event>
  {
    [BeginIncrement] + [BeginLoadFront] + StoreEvents(stores) + [CommitLoadFront] + [CommitStoreFront] + [CommitIncrement]
  }

  lemma {:induction false} StoresRun(s: State, stores: seq<(nat, Word)>, n: nat)
    requires s.writer.Writing? && s.writer.target < 2 && |s.buffers| == 2 && |s.buffers[s.writer.target]| == n
    requires forall i :: 0 <= i < |stores| ==> stores[i].0 < n
    ensures var t := s.writer.target;
            From(s, StoreEvents(stores), n)
            == Some(s.(buffers := s.buffers[t := Overlay(s.buffers[t], stores)], pending := s.pending + stores))
  {
    var t := s.writer.target;
    if stores == [] {
      assert s.buffers[t := s.buffers[t]] == s.buffers && s.pending + [] == s.pending;
    } else {
      var init, last := stores[..|stores| - 1], stores[|stores| - 1];
      StoresRun(s, init, n);
      var s1 := From(s, StoreEvents(init), n).value;
      FromAppend(s, StoreEvents(init), [StoreWord(last.0, last.1)], n);
      OneStep(s1, StoreWord(last.0, last.1), n);
      assert s.pending + stores == s.pending + init + [last];
      assert s1.buffers[t := Overlay(s.buffers[t], stores)] == s.buffers[t := Overlay(s.buffers[t], stores)];
    }
  }

  /** A write, taken by itself, is what the double buffer's `Write` does: it changes the spare buffer, publishes it,
      and leaves the formerly published one spare. */
  lemma UndisturbedWrite(s: State, stores: seq<(nat, Word)>, n: nat)
    requires s.writer.Idle? && s.front < 2 && |s.buffers| == 2 && |s.buffers[1 - s.front]| == n
    requires forall i :: 0 <= i < |stores| ==> stores[i].0 < n
    ensures var s' := From(s, WriteEvents(stores), n);
            && s'.Some? && s'.value.writer.Idle? && s'.value.front == 1 - s.front && s'.value.sequence == s.sequence + 2
            && s'.value.buffers == s.buffers[1 - s.front := Overlay(s.buffers[1 - s.front], stores)]
            && s'.value.readers == s.readers && s'.value.results == s.results
  {
    var begin := [BeginIncrement] + [BeginLoadFront];
    OneStep(s, BeginIncrement, n);
    var s1 := Apply(s, BeginIncrement, n);
    FromAppend(s, [BeginIncrement], [BeginLoadFront], n);
    OneStep(s1, BeginLoadFront, n);
    var s2 := Apply(s1, BeginLoadFront, n);
    StoresRun(s2, stores, n);
    FromAppend(s, begin, StoreEvents(stores), n);
    var s3 := From(s2, StoreEvents(stores), n).value;
    hide Overlay, StoreEvents, From;
    FromAppend(s, begin + StoreEvents(stores), [CommitLoadFront], n);
    OneStep(s3, CommitLoadFront, n);
    var s4 := Apply(s3, CommitLoadFront, n);
    FromAppend(s, begin + StoreEvents(stores) + [CommitLoadFront], [CommitStoreFront], n);
    OneStep(s4, CommitStoreFront, n);
    var s5 := Apply(s4, CommitStoreFront, n);
    FromAppend(s, begin + StoreEvents(stores) + [CommitLoadFront] + [CommitStoreFront], [CommitIncrement], n);
    OneStep(s5, CommitIncrement, n);
  }

  function CopyEvents(r: nat, k: nat): seq<Event>
  {
    if k == 0 then [] else CopyEvents(r, k - 1) + [CopyWord(r, k - 1)]
  }

  function ReadEvents(r: nat, n: nat): seq<Event>
  {
    [Enter(r)] + [LoadSequence(r)] + [LoadFront(r)] + CopyEvents(r, n) + [CheckSequence(r)]
  }

  lemma {:induction false} CopiesRun(s: State, r: nat, k: nat, n: nat)
    requires ReaderOf(s, r).Reading? && ReaderOf(s, r).progress.Copying? && ReaderOf(s, r).progress.copied == map[]
    requires |s.buffers| == 2 && ReaderOf(s, r).progress.source < 2 && k <= n == |s.buffers[ReaderOf(s, r).progress.source]|
    ensures From(s, CopyEvents(r, k), n).Some?
    ensures var s' := From(s, CopyEvents(r, k), n).value;
            && s' == s.(readers := s'.readers) && ReaderOf(s', r).Reading? && ReaderOf(s', r).progress.Copying?
            && ReaderOf(s', r) == ReaderOf(s, r).(progress := ReaderOf(s, r).progress.(copied := ReaderOf(s', r).progress.copied))
            && forall i: nat :: (i in ReaderOf(s', r).progress.copied <==> i < k)
                 && (i < k ==> ReaderOf(s', r).progress.copied[i] == s.buffers[ReaderOf(s, r).progress.source][i])
  {
    if k > 0 {
      CopiesRun(s, r, k - 1, n);
      var s1 := From(s, CopyEvents(r, k - 1), n).value;
      FromAppend(s, CopyEvents(r, k - 1), [CopyWord(r, k - 1)], n);
      OneStep(s1, CopyWord(r, k - 1), n);
    }
  }

  /** A read during which the writer rests returns at its first attempt, with the published buffer. */
  lemma UndisturbedRead(s: State, r: nat, n: nat)
    requires s.writer.Idle? && s.sequence % 2 == 0 && s.front < 2 && |s.buffers| == 2 && |s.buffers[s.front]| == n
    requires ReaderOf(s, r).Outside?
    ensures var s' := From(s, ReadEvents(r, n), n);
            && s'.Some? && |s'.value.results| == |s.results| + 1
            && s'.value.results[|s.results|].reader == r && s'.value.results[|s.results|].data == s.buffers[s.front]
            && s'.value == s.(readers := s'.value.readers, results := s'.value.results)
  {
    OneStep(s, Enter(r), n);
    var s1 := Apply(s, Enter(r), n);
    FromAppend(s, [Enter(r)], [LoadSequence(r)], n);
    OneStep(s1, LoadSequence(r), n);
    var s2 := Apply(s1, LoadSequence(r), n);
    FromAppend(s, [Enter(r)] + [LoadSequence(r)], [LoadFront(r)], n);
    OneStep(s2, LoadFront(r), n);
    var s3 := Apply(s2, LoadFront(r), n);
    var begin := [Enter(r)] + [LoadSequence(r)] + [LoadFront(r)];
    CopiesRun(s3, r, n, n);
    FromAppend(s, begin, CopyEvents(r, n), n);
    var s4 := From(s3, CopyEvents(r, n), n).value;
    hide From, CopyEvents;
    FromAppend(s, begin + CopyEvents(r, n), [CheckSequence(r)], n);
    OneStep(s4, CheckSequence(r), n);
    assert Collected(ReaderOf(s4, r).progress.copied, n) == s.buffers[s.front];
  }

  // ---- Refinement of an atomic register ----------------------------------------------

  datatype Operation = Write(image: Image) | Read(reader: nat, seen: Image)

  /** What a step means for the register: a commit publishes at its second increment, a read happens at the
      check that lets it return, and every other step means nothing. */
  function OperationOf(s: State, e: Event, n: nat): seq<Operation>
    requires Enabled(s, e, n)
  {
    var s' := Apply(s, e, n);
    if e.CommitIncrement? then [Write(s.buffers[s.front])]
    else if |s'.results| > |s.results| then [Read(s'.results[|s.results|].reader, s'.results[|s.results|].data)]
    else []
  }

  /** The operations of a run, in the order of the steps at which they take effect. */
  function Operations(n: nat, es: seq<Event>): seq<Operation>
    requires After(n, es).Some?
  {
    if es == [] then []
    else Operations(n, es[..|es| - 1]) + OperationOf(After(n, es[..|es| - 1]).value, es[|es| - 1], n)
  }

  /** The register after a sequence of operations. */
  function RegisterValue(n: nat, ops: seq<Operation>): Image
  {
    if ops == [] then Zeros(n)
    else if ops[|ops| - 1].Write? then ops[|ops| - 1].image
    else RegisterValue(n, ops[..|ops| - 1])
  }

  /** A history of an atomic register: every read sees the latest write. */
  ghost predicate Atomic(n: nat, ops: seq<Operation>)
  {
    forall i :: 0 <= i < |ops| && ops[i].Read? ==> ops[i].seen == RegisterValue(n, ops[..i])
  }

  lemma StepRefines(s: State, e: Event, n: nat)
    requires VersionsInv(s, n) && Enabled(s, e, n) && (IsReaderStep(e) ==> ReaderInv(s, e.r))
    ensures var s', ops := Apply(s, e, n), OperationOf(s, e, n);
            && s'.versions != [] && |ops| <= 1
            && (ops == [] ==> s'.versions == s.versions)
            && (ops != [] && ops[0].Write? ==> s'.versions == s.versions + [ops[0].image])
            && (ops != [] && ops[0].Read? ==> s'.versions == s.versions && ops[0].seen == s.versions[Commits(s)])
  {
    hide HistoryInv, OrderInv;
    if IsReaderStep(e) {
      ReaderFrame(s, e, n);
      OwnStep(s, e, n);
      if e.CheckSequence? && s.sequence == ReaderOf(s, e.r).progress.seq1 {
        assert ResultInv(Apply(s, e, n), |s.results|);
      }
    }
  }

  lemma AtomicExtends(n: nat, ops: seq<Operation>, more: seq<Operation>)
    requires Atomic(n, ops) && |more| <= 1
    requires more != [] && more[0].Read? ==> more[0].seen == RegisterValue(n, ops)
    ensures Atomic(n, ops + more)
    ensures RegisterValue(n, ops + more) == if more != [] && more[0].Write? then more[0].image else RegisterValue(n, ops)
  {
    var all := ops + more;
    forall i | 0 <= i < |all| && all[i].Read?
      ensures all[i].seen == RegisterValue(n, all[..i])
    {
      assert all[..i] == if i < |ops| then ops[..i] else ops;
    }
    if more == [] {
      assert all == ops;
    } else {
      assert all[..|ops|] == ops;
    }
  }

  /** Every interleaving of word-by-word reads and writes is an atomic register: reads and writes take effect at
      one step each, between their beginnings and ends. */
  lemma {:induction false} RefinesAtomicRegister(n: nat, es: seq<Event>)
    requires After(n, es).Some?
    ensures var s := After(n, es).value;
            s.versions != [] && Atomic(n, Operations(n, es)) && RegisterValue(n, Operations(n, es)) == s.versions[Commits(s)]
  {
    if es != [] {
      var init, e := es[..|es| - 1], es[|es| - 1];
      var s := After(n, init).value;
      RefinesAtomicRegister(n, init);
      Reachable(n, init);
      assert IsReaderStep(e) ==> ReaderInv(s, e.r);
      Continues(n, es);
      CommitsRegister(s, e, n, Operations(n, init));
    }
  }

  lemma Continues(n: nat, es: seq<Event>)
    requires After(n, es).Some? && es != []
    ensures var init, e := es[..|es| - 1], es[|es| - 1];
            && After(n, init).Some? && Enabled(After(n, init).value, e, n)
            && After(n, es).value == Apply(After(n, init).value, e, n)
            && Operations(n, es) == Operations(n, init) + OperationOf(After(n, init).value, e, n)
  {}

  lemma CommitsRegister(s: State, e: Event, n: nat, ops: seq<Operation>)
    requires VersionsInv(s, n) && Enabled(s, e, n) && (IsReaderStep(e) ==> ReaderInv(s, e.r))
    requires Atomic(n, ops) && RegisterValue(n, ops) == s.versions[Commits(s)]
    ensures var s', ops' := Apply(s, e, n), ops + OperationOf(s, e, n);
            s'.versions != [] && Atomic(n, ops') && RegisterValue(n, ops') == s'.versions[Commits(s')]
  {
    StepRefines(s, e, n);
    hide Apply, Enabled, OperationOf;
    AtomicExtends(n, ops, OperationOf(s, e, n));
    hide Atomic, RegisterValue, VersionsInv, ReaderInv, ReaderOf;
  }

  /** Each operation takes effect while it is in progress: the reads of the history are the returned reads, in
      their order of returning, and the writes are the published versions. */
  function ReadsOf(ops: seq<Operation>): seq<(nat, Image)>
  {
    if ops == [] then []
    else ReadsOf(ops[..|ops| - 1]) + if ops[|ops| - 1].Read? then [(ops[|ops| - 1].reader, ops[|ops| - 1].seen)] else []
  }

  function WritesOf(ops: seq<Operation>): seq<Image>
  {
    if ops == [] then []
    else WritesOf(ops[..|ops| - 1]) + if ops[|ops| - 1].Write? then [ops[|ops| - 1].image] else []
  }

  function Returned(results: seq<Result>): seq<(nat, Image)>
  {
    seq(|results|, (i: nat) requires i < |results| => (results[i].reader, results[i].data))
  }

  lemma StepRecords(s: State, e: Event, n: nat)
    requires Enabled(s, e, n)
    ensures var s', ops := Apply(s, e, n), OperationOf(s, e, n);
            |ops| <= 1 && Returned(s'.results) == Returned(s.results) + ReadsOf(ops) && s'.versions == s.versions + WritesOf(ops)
  {
    var ops := OperationOf(s, e, n);
    assert ops != [] ==> ops[..|ops| - 1] == [];
  }

  lemma OperationsExtend(ops: seq<Operation>, more: seq<Operation>)
    requires |more| <= 1
    ensures ReadsOf(ops + more) == ReadsOf(ops) + ReadsOf(more) && WritesOf(ops + more) == WritesOf(ops) + WritesOf(more)
  {
    if more == [] {
      assert ops + more == ops;
    } else {
      assert (ops + more)[..|ops|] == ops && more[..0] == [];
    }
  }

  /** No operation is lost or invented. */
  lemma {:induction false} HistoryIsComplete(n: nat, es: seq<Event>)
    requires After(n, es).Some?
    ensures var s, ops := After(n, es).value, Operations(n, es);
            ReadsOf(ops) == Returned(s.results) && [Zeros(n)] + WritesOf(ops) == s.versions
  {
    if es != [] {
      var init, e := es[..|es| - 1], es[|es| - 1];
      var s := After(n, init).value;
      HistoryIsComplete(n, init);
      Continues(n, es);
      StepRecords(s, e, n);
      var ops, more := Operations(n, init), OperationOf(s, e, n);
      OperationsExtend(ops, more);
      hide *;
      assert [Zeros(n)] + (WritesOf(ops) + WritesOf(more)) == [Zeros(n)] + WritesOf(ops) + WritesOf(more);
    }
  }
}
