/** The comparison page's state and the events that change it, as values.
    The component in PageComponent keeps the same state in fields; each of
    its methods is specified by one step function here (SetImage by
    StoreImage, SetVerdict by StoreVerdict, ResultPanel by Displayed, the
    others by the function of the same name). */
module PageModel {
  import opened Wrappers
  import Classifier
  import Progress
  import opened ResultLabel

  /** The two upload boxes. */
  datatype Slot = First | Second

  /** An uploaded file: its name and its (uninterpreted) contents. */
  datatype File = File(name: string, bytes: seq<bv8>)

  /** The page's React state, plus two counters for the asynchronous work
      it has started and not yet seen finish: comparisons whose completion
      callback has not yet run, and progress intervals not yet cleared. */
  datatype PageState = PageState(
    image1: Option<File>,
    image2: Option<File>,
    isComparing: bool,
    comparisonResult: Option<real>,
    progress: int,
    diffImage: Option<string>,
    isSpecialCase: bool,
    pendingComparisons: nat,
    runningTickers: nat)

  /** What the result area shows: the score, the sentence under it, and
      the difference image if one is shown. */
  datatype Panel = Panel(score: real, verdict: Verdict, diff: Option<string>)

  /** The score forced by the special case. */
  const FULL_MATCH: real := 100.0
  /** The progress shown once a result is in. */
  const DONE: int := 100

  function Other(slot: Slot): Slot
  {
    if slot == First then Second else First
  }

  function Image(s: PageState, slot: Slot): Option<File>
  {
    if slot == First then s.image1 else s.image2
  }

  predicate BothFilled(s: PageState)
  {
    s.image1.Some? && s.image2.Some?
  }

  /** The state invariant: progress is a multiple of ten in [0, 100]; while
      a comparison is in flight it shows at most 90 and some completion is
      pending; it shows 100 only once a result exists, and a difference
      image exists only beside a result. */
  predicate Inv(s: PageState)
    ensures Inv(s) && s.progress == DONE ==> Displayed(s).Some?
    ensures Inv(s) && s.isComparing ==> Displayed(s) == None && s.progress < DONE
  {
    && 0 <= s.progress <= DONE
    && s.progress % 10 == 0
    && (s.isComparing ==> s.progress <= Progress.CAP && s.pendingComparisons > 0)
    && (s.progress == DONE ==> !s.isComparing && s.comparisonResult.Some?)
    && (s.diffImage.Some? ==> s.comparisonResult.Some?)
  }

  /** The state after the first render. */
  function Initial(): (s: PageState)
    ensures Inv(s)
    ensures s.image1 == None && s.image2 == None
    ensures s.comparisonResult == None && s.diffImage == None
    ensures !s.isComparing && s.progress == Progress.START && !s.isSpecialCase
    ensures s.pendingComparisons == 0 && s.runningTickers == 0
  {
    PageState(None, None, false, None, 0, None, false, 0, 0)
  }

  /** `setImage(file)` in `handleImageUpload`: the file goes into the
      chosen slot, and nothing else changes. */
  function StoreImage(s: PageState, slot: Slot, f: File): (t: PageState)
    ensures Image(t, slot) == Some(f) && Image(t, Other(slot)) == Image(s, Other(slot))
    ensures t.(image1 := s.image1, image2 := s.image2) == s
    ensures Inv(s) ==> Inv(t)
  {
    if slot == First then s.(image1 := Some(f)) else s.(image2 := Some(f))
  }

  /** The rest of `handleImageUpload`, after `await isSpecificPerson(file)`:
      the flag becomes the classifier's verdict on the file, whichever slot
      it went to, and nothing else changes. */
  function StoreVerdict(s: PageState, f: File): (t: PageState)
    ensures t.isSpecialCase <==> Classifier.IsSpecificPerson(f.name)
    ensures t.(isSpecialCase := s.isSpecialCase) == s
    ensures Inv(s) ==> Inv(t)
  {
    if Classifier.IsSpecificPerson(f.name) then s.(isSpecialCase := true)
    else s.(isSpecialCase := false)
  }

  /** `compareImages`: nothing unless both slots hold a file; under the
      special case the perfect score at once, with no comparison work and no
      ticker; otherwise a comparison and a progress ticker are started and
      the indicator is reset. The slots and the flag are never touched. */
  function CompareImages(s: PageState): (t: PageState)
    ensures !BothFilled(s) ==> t == s
    ensures BothFilled(s) && s.isSpecialCase ==>
      && t.comparisonResult == Some(FULL_MATCH) && t.diffImage == None
      && !t.isComparing && t.progress == DONE
      && t.pendingComparisons == s.pendingComparisons && t.runningTickers == s.runningTickers
    ensures BothFilled(s) && !s.isSpecialCase ==>
      && t.isComparing && t.progress == Progress.START
      && t.pendingComparisons == s.pendingComparisons + 1 && t.runningTickers == s.runningTickers + 1
      && t.comparisonResult == s.comparisonResult && t.diffImage == s.diffImage
    ensures t.image1 == s.image1 && t.image2 == s.image2 && t.isSpecialCase == s.isSpecialCase
    ensures Inv(s) ==> Inv(t)
  {
    if !BothFilled(s) then s
    else if s.isSpecialCase then
      s.(comparisonResult := Some(FULL_MATCH), diffImage := None, isComparing := false, progress := DONE)
    else
      s.(isComparing := true, progress := Progress.START,
         pendingComparisons := s.pendingComparisons + 1,
         runningTickers := s.runningTickers + 1)
  }

  /** An upload event as the page runs it. With no file nothing happens.
      Otherwise `setImage` changes a slot, so React renders and runs the
      auto-compare effect before the handler resumes after its `await`:
      `compareImages` runs with the flag as it was. Then the handler sets
      the flag from the new file. If that changes the flag, `compareImages`
      is a new callback, and the effect runs it a second time. Both runs
      do nothing unless both slots hold a file. */
  function Upload(s: PageState, slot: Slot, file: Option<File>): (t: PageState)
    ensures file.None? ==> t == s
    ensures file.Some? ==> Image(t, slot) == file && Image(t, Other(slot)) == Image(s, Other(slot))
    ensures file.Some? ==> (t.isSpecialCase <==> Classifier.IsSpecificPerson(file.value.name))
    ensures !BothFilled(t) ==> t.(image1 := s.image1, image2 := s.image2, isSpecialCase := s.isSpecialCase) == s
    ensures Inv(s) ==> Inv(t)
  {
    match file
    case None => s
    case Some(f) =>
      var rendered := CompareImages(StoreImage(s, slot, f));
      var flagged := StoreVerdict(rendered, f);
      if flagged.isSpecialCase != rendered.isSpecialCase then CompareImages(flagged) else flagged
  }

  /** The comparer's completion callback: the score is 100 minus the
      mismatch percentage, the difference image is stored, the comparison
      is over and the indicator shows 100. */
  function Complete(s: PageState, mismatch: real, diff: string): (t: PageState)
    requires s.pendingComparisons > 0
    ensures t.comparisonResult == Some(FULL_MATCH - mismatch) && t.diffImage == Some(diff)
    ensures !t.isComparing && t.progress == DONE
    ensures t.pendingComparisons == s.pendingComparisons - 1
    ensures t.image1 == s.image1 && t.image2 == s.image2
    ensures t.isSpecialCase == s.isSpecialCase && t.runningTickers == s.runningTickers
    ensures 0.0 <= mismatch <= 100.0 ==> 0.0 <= t.comparisonResult.value <= FULL_MATCH
    ensures Inv(s) ==> Inv(t)
  {
    s.(comparisonResult := Some(FULL_MATCH - mismatch), diffImage := Some(diff),
       isComparing := false, progress := DONE,
       pendingComparisons := s.pendingComparisons - 1)
  }

  /** One firing of some running progress interval. With no interval
      running nothing happens. The interval that sees 90 or more clears
      itself. Only the indicator and the ticker count change. */
  function Tick(s: PageState): (t: PageState)
    ensures s.runningTickers == 0 ==> t == s
    ensures s.runningTickers > 0 ==> t.progress == Progress.Step(s.progress)
    ensures s.runningTickers > 0 ==>
      t.runningTickers == if Progress.StopsTicker(s.progress) then s.runningTickers - 1 else s.runningTickers
    ensures t.(progress := s.progress, runningTickers := s.runningTickers) == s
    ensures Inv(s) ==> Inv(t)
    ensures Inv(s) && s.isComparing ==> s.progress <= t.progress
  {
    if s.runningTickers == 0 then s
    else
      s.(progress := Progress.Step(s.progress),
         runningTickers := if Progress.StopsTicker(s.progress) then s.runningTickers - 1 else s.runningTickers)
  }

  /** `n` firings in a row. */
  function TickN(s: PageState, n: nat): (t: PageState)
    ensures t.(progress := s.progress, runningTickers := s.runningTickers) == s
    ensures t.runningTickers <= s.runningTickers
    ensures Inv(s) ==> Inv(t)
  {
    if n == 0 then s else Tick(TickN(s, n - 1))
  }

  /** The result area: shown once a result exists and no comparison is in
      flight; the sentence follows `Label`, and the difference image is
      shown when there is one and the special case does not hold. */
  function Displayed(s: PageState): (p: Option<Panel>)
    ensures p.Some? <==> s.comparisonResult.Some? && !s.isComparing
    ensures p.Some? ==> p.value.score == s.comparisonResult.value
    ensures p.Some? ==> p.value.verdict == Label(s.isSpecialCase, s.comparisonResult.value)
    ensures p.Some? ==> (p.value.diff.Some? <==> s.diffImage.Some? && !s.isSpecialCase)
    ensures p.Some? && p.value.diff.Some? ==> p.value.diff == s.diffImage
  {
    if s.comparisonResult.Some? && !s.isComparing then
      var score := s.comparisonResult.value;
      Some(Panel(score, Label(s.isSpecialCase, score),
                 if s.diffImage.Some? && !s.isSpecialCase then s.diffImage else None))
    else None
  }

  // ---------------------------------------------------------------------
  // The automatic comparison: started exactly when both slots are filled.

  /** An upload that leaves a slot empty starts nothing: only the slot
      and the flag change. */
  lemma UploadIncomplete(s: PageState, slot: Slot, f: File)
    requires Image(s, Other(slot)).None?
    ensures Upload(s, slot, Some(f)) == StoreVerdict(StoreImage(s, slot, f), f)
    ensures var t := Upload(s, slot, Some(f));
      t.isComparing == s.isComparing && t.progress == s.progress &&
      t.comparisonResult == s.comparisonResult &&
      t.pendingComparisons == s.pendingComparisons && t.runningTickers == s.runningTickers
  {
  }

  /** An upload of a trigger file into either slot, with the other slot
      filled, shows the special-case result at once, whatever the other file
      is. If the flag was unset before, the render between the two halves of
      the handler has already started one ordinary comparison and one
      ticker, which are still running; if it was set, no work is started. */
  lemma UploadOverride(s: PageState, slot: Slot, f: File)
    requires Image(s, Other(slot)).Some?
    requires Classifier.IsSpecificPerson(f.name)
    ensures var t := Upload(s, slot, Some(f));
      var started := if s.isSpecialCase then 0 else 1;
      && Displayed(t) == Some(Panel(FULL_MATCH, SpecialCase, None))
      && t.progress == DONE && t.diffImage == None
      && t.pendingComparisons == s.pendingComparisons + started
      && t.runningTickers == s.runningTickers + started
  {
  }

  /** An upload of any other file, with the other slot filled, starts
      exactly one comparison and one ticker and resets the indicator,
      whatever the flag was; the result area is hidden until a completion
      arrives. */
  lemma UploadStartsComparison(s: PageState, slot: Slot, f: File)
    requires Image(s, Other(slot)).Some?
    requires !Classifier.IsSpecificPerson(f.name)
    ensures var t := Upload(s, slot, Some(f));
      && t.isComparing && t.progress == Progress.START && Displayed(t) == None
      && t.pendingComparisons == s.pendingComparisons + 1 && t.runningTickers == s.runningTickers + 1
      && t.comparisonResult == (if s.isSpecialCase then Some(FULL_MATCH) else s.comparisonResult)
      && t.diffImage == (if s.isSpecialCase then None else s.diffImage)
  {
  }

  /** The flag follows the latest upload, not the first slot: a trigger
      file in the first slot followed by an ordinary file in the second
      takes the real comparison path. The render before the flag is reset
      has already stored the forced 100, which stays hidden behind the
      running comparison. */
  lemma VerdictFollowsLatestUpload(a: File, b: File)
    requires Classifier.IsSpecificPerson(a.name) && !Classifier.IsSpecificPerson(b.name)
    ensures var t := Upload(Upload(Initial(), First, Some(a)), Second, Some(b));
      && !t.isSpecialCase && t.isComparing && t.pendingComparisons == 1
      && t.comparisonResult == Some(FULL_MATCH) && Displayed(t) == None
  {
  }

  // ---------------------------------------------------------------------
  // Progress while a comparison runs.

  /** Starting from a value on the ticker's path with an interval still
      able to move it, `n` firings show the value `n` further along, and
      nothing but the indicator and the ticker count changes. */
  lemma {:induction false} TickNFollowsTicks(s: PageState, k: nat, n: nat)
    requires s.progress == Progress.Ticks(Progress.START, k)
    requires s.runningTickers > 0 || s.progress == Progress.CAP
    ensures var t := TickN(s, n);
      && t.progress == Progress.Ticks(Progress.START, k + n)
      && (t.runningTickers > 0 || t.progress == Progress.CAP)
      && t.(progress := s.progress, runningTickers := s.runningTickers) == s
  {
    if n > 0 {
      TickNFollowsTicks(s, k, n - 1);
      var u := TickN(s, n - 1);
      assert TickN(s, n) == Tick(u);
      if u.runningTickers == 0 {
        assert Progress.Step(Progress.CAP) == Progress.CAP;
      }
    }
  }

  /** After a comparison starts, the indicator shows min(10 n, 90) after n
      firings, never 100, and the result area stays hidden. */
  lemma ProgressDuringComparison(s: PageState, n: nat)
    requires BothFilled(s) && !s.isSpecialCase
    ensures var t := TickN(CompareImages(s), n);
      && t.progress == Progress.Min(Progress.STEP * n, Progress.CAP)
      && t.isComparing && Displayed(t) == None
      && t.pendingComparisons == s.pendingComparisons + 1
  {
    var c := CompareImages(s);
    assert c.progress == Progress.Ticks(Progress.START, 0);
    TickNFollowsTicks(c, 0, n);
    Progress.TicksFromStart(n);
  }

  // ---------------------------------------------------------------------
  // Whole requests.

  /** Both slots filled with an ordinary second file, then any number of
      firings, then the completion: the score is 100 minus the mismatch,
      the difference image is shown, and the sentence says "highly
      similar" exactly when the mismatch is below 20. */
  lemma ComparisonRequest(a: File, b: File, n: nat, mismatch: real, diff: string)
    requires !Classifier.IsSpecificPerson(b.name)
    ensures var started := Upload(Upload(Initial(), First, Some(a)), Second, Some(b));
      var ticked := TickN(started, n);
      && ticked.pendingComparisons == 1 && Displayed(ticked) == None
      && ticked.progress == Progress.Min(Progress.STEP * n, Progress.CAP)
      && (var t := Complete(ticked, mismatch, diff);
          && Displayed(t) == Some(Panel(FULL_MATCH - mismatch, Label(false, FULL_MATCH - mismatch), Some(diff)))
          && (Label(false, FULL_MATCH - mismatch) == HighlySimilar <==> mismatch < 20.0)
          && t.progress == DONE)
  {
    var one := Upload(Initial(), First, Some(a));
    var rendered := CompareImages(StoreImage(one, Second, b));
    var flagged := StoreVerdict(rendered, b);
    if one.isSpecialCase {
      ProgressDuringComparison(flagged, n);
    } else {
      assert flagged == rendered;
      ProgressDuringComparison(StoreImage(one, Second, b), n);
    }
  }

  /** Both slots filled with a trigger file last: the special-case result
      at once, whatever the first file is. One ordinary comparison is left
      running unless the first file was a trigger file too. */
  lemma OverrideRequest(a: File, b: File)
    requires Classifier.IsSpecificPerson(b.name)
    ensures var t := Upload(Upload(Initial(), First, Some(a)), Second, Some(b));
      && Displayed(t) == Some(Panel(FULL_MATCH, SpecialCase, None))
      && t.pendingComparisons == if Classifier.IsSpecificPerson(a.name) then 0 else 1
  {
  }

  /** The forced result does not last: with an ordinary first file and a
      trigger file second, the comparison started by the render between
      the two halves of the handler completes later and replaces the 100
      by 100 minus the mismatch, while the sentence still reads "special
      case" and the difference image stays hidden. */
  lemma OverrideLostToPendingComparison(a: File, b: File, mismatch: real, diff: string)
    requires !Classifier.IsSpecificPerson(a.name) && Classifier.IsSpecificPerson(b.name)
    ensures var t := Upload(Upload(Initial(), First, Some(a)), Second, Some(b));
      && t.pendingComparisons == 1
      && Displayed(Complete(t, mismatch, diff)) == Some(Panel(FULL_MATCH - mismatch, SpecialCase, None))
  {
    OverrideRequest(a, b);
  }

  /** A comparison still running when a trigger file is uploaded: the
      upload's own first render starts a second one, and either completion
      replaces the forced score while the sentence still reads "special
      case" and the difference image stays hidden. */
  lemma StaleCompletionAfterOverride(a: File, b: File, c: File, mismatch: real, diff: string)
    requires !Classifier.IsSpecificPerson(b.name) && Classifier.IsSpecificPerson(c.name)
    ensures var started := Upload(Upload(Initial(), First, Some(a)), Second, Some(b));
      var overridden := Upload(started, Second, Some(c));
      && Displayed(overridden) == Some(Panel(FULL_MATCH, SpecialCase, None))
      && overridden.pendingComparisons == 2
      && Displayed(Complete(overridden, mismatch, diff)) == Some(Panel(FULL_MATCH - mismatch, SpecialCase, None))
  {
    var started := Upload(Upload(Initial(), First, Some(a)), Second, Some(b));
    UploadStartsComparison(Upload(Initial(), First, Some(a)), Second, b);
    UploadOverride(started, Second, c);
  }

  /** A completion that arrives before the ticker reached 90 leaves the
      interval running; its next firing pulls the indicator from 100 back
      to 90 beside the finished result. */
  lemma StaleTickAfterCompletion(a: File, b: File, mismatch: real, diff: string)
    requires !Classifier.IsSpecificPerson(b.name)
    ensures var started := Upload(Upload(Initial(), First, Some(a)), Second, Some(b));
      var done := Complete(started, mismatch, diff);
      && done.progress == DONE && done.runningTickers == 1
      && Tick(done).progress == Progress.CAP
      && Displayed(Tick(done)) == Displayed(done) && Displayed(done).Some?
  {
  }
}
