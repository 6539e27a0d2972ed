/** The comparison page as an object: its React state variables are fields,
    each setter call is a field assignment, and every handler is a method
    whose new state is a PageModel step: SetImage is StoreImage, SetVerdict
    is StoreVerdict, the other handlers are the steps of the same name, and
    ResultPanel returns Displayed. */
module PageComponent {
  import opened Wrappers
  import Classifier
  import Progress
  import ResultLabel
  import opened PageModel

  class ComparisonPage {
    var image1: Option<File>
    var image2: Option<File>
    var isComparing: bool
    var comparisonResult: Option<real>
    var progress: int
    var diffImage: Option<string>
    var isSpecialCase: bool
    /** Comparisons whose completion callback has not run yet. */
    var pendingComparisons: nat
    /** Progress intervals that have not cleared themselves yet. */
    var runningTickers: nat

    /** The fields as one value. */
    function State(): PageState
      reads this
    {
      PageState(image1, image2, isComparing, comparisonResult, progress,
                diffImage, isSpecialCase, pendingComparisons, runningTickers)
    }

    ghost predicate Valid()
      reads this
    {
      Inv(State())
    }

    /** The initial `useState` values. */
    constructor ()
      ensures Valid() && State() == Initial()
    {
      image1, image2 := None, None;
      isComparing := false;
      comparisonResult := None;
      progress := Progress.START;
      diffImage := None;
      isSpecialCase := false;
      pendingComparisons, runningTickers := 0, 0;
    }

    /** `setImage(file)`, with `setImage` chosen by `slot`. */
    method SetImage(slot: Slot, f: File)
      requires Valid()
      modifies this
      ensures Valid()
      ensures State() == PageModel.StoreImage(old(State()), slot, f)
    {
      if slot == First {
        image1 := Some(f);
      } else {
        image2 := Some(f);
      }
    }

    /** `setIsSpecialCase(await isSpecificPerson(file))`. */
    method SetVerdict(f: File)
      requires Valid()
      modifies this
      ensures Valid()
      ensures State() == PageModel.StoreVerdict(old(State()), f)
    {
      var verdict := Classifier.IsSpecificPerson(f.name);
      if verdict {
        isSpecialCase := true;
      } else {
        isSpecialCase := false;
      }
    }

    /** `compareImages()`. */
    method CompareImages()
      requires Valid()
      modifies this
      ensures Valid()
      ensures State() == PageModel.CompareImages(old(State()))
    {
      if image1.None? || image2.None? {
        return;
      }
      isComparing := true;
      progress := Progress.START;
      if isSpecialCase {
        comparisonResult := Some(FULL_MATCH);
        diffImage := None;
        isComparing := false;
        progress := DONE;
      } else {
        // the two file reads and the comparer run asynchronously; their
        // completion arrives later through Complete
        pendingComparisons := pendingComparisons + 1;
        runningTickers := runningTickers + 1;
      }
    }

    /** `handleImageUpload(e, setImage)` with the effect runs it causes:
        one after `setImage`, with the flag as it was, and one more after
        the flag is set if that changed it. */
    method Upload(slot: Slot, file: Option<File>)
      requires Valid()
      modifies this
      ensures Valid()
      ensures State() == PageModel.Upload(old(State()), slot, file)
    {
      if file.None? {
        return;
      }
      SetImage(slot, file.value);
      CompareImages();
      var before := isSpecialCase;
      SetVerdict(file.value);
      if isSpecialCase != before {
        CompareImages();
      }
    }

    /** The comparer's `onComplete` callback. */
    method Complete(mismatch: real, diff: string)
      requires Valid() && pendingComparisons > 0
      modifies this
      ensures Valid()
      ensures State() == PageModel.Complete(old(State()), mismatch, diff)
    {
      comparisonResult := Some(FULL_MATCH - mismatch);
      diffImage := Some(diff);
      isComparing := false;
      progress := DONE;
      pendingComparisons := pendingComparisons - 1;
    }

    /** One firing of a running progress interval. */
    method Tick()
      requires Valid()
      modifies this
      ensures Valid()
      ensures State() == PageModel.Tick(old(State()))
    {
      if runningTickers == 0 {
        return;
      }
      var prev := progress;
      if prev >= Progress.CAP {
        runningTickers := runningTickers - 1;
        progress := Progress.CAP;
      } else {
        progress := prev + Progress.STEP;
      }
    }

    /** What the result area shows. */
    method ResultPanel() returns (p: Option<Panel>)
      ensures p == Displayed(State())
      ensures p.Some? ==> !isComparing && p.value.score == comparisonResult.value
      ensures p.Some? ==> (p.value.verdict == ResultLabel.SpecialCase <==> isSpecialCase)
    {
      if comparisonResult.Some? && !isComparing {
        var score := comparisonResult.value;
        var shown := if diffImage.Some? && !isSpecialCase then diffImage else None;
        p := Some(Panel(score, ResultLabel.Label(isSpecialCase, score), shown));
      } else {
        p := None;
      }
    }
  }

  /** Two uploads of ordinary files, three firings and a completion, driven
      through the object. */
  method OrdinaryRequest(a: File, b: File, mismatch: real, diff: string) returns (p: Option<Panel>)
    requires !Classifier.IsSpecificPerson(b.name)
    ensures p == Some(Panel(FULL_MATCH - mismatch, ResultLabel.Label(false, FULL_MATCH - mismatch), Some(diff)))
  {
    var page := new ComparisonPage();
    page.Upload(First, Some(a));
    page.Upload(Second, Some(b));
    assert page.progress == 0 && page.isComparing;
    page.Tick();
    page.Tick();
    page.Tick();
    assert page.progress == 30;
    page.Complete(mismatch, diff);
    p := page.ResultPanel();
  }

  /** A trigger file in the second slot: the forced result, through the
      object. */
  method SpecialRequest(a: File, b: File) returns (p: Option<Panel>)
    requires Classifier.IsSpecificPerson(b.name)
    ensures p == Some(Panel(FULL_MATCH, ResultLabel.SpecialCase, None))
  {
    var page := new ComparisonPage();
    page.Upload(First, Some(a));
    page.Upload(Second, Some(b));
    p := page.ResultPanel();
  }
}
