/** Sequences of events hitting the curriculum viewer: button clicks, the
    effect that runs on mount and whenever the course changes, and the
    settling of the curriculum request. */
module CurriculumRuns {
  import opened CourseCurriculum

  datatype Event =
    | ExpandClicked
    | CollapseClicked
      /** The effect body: a collapse, after which the request is issued and
          the effect returns without waiting for it. */
    | EffectRan
      /** The request settled with a parsed body carrying these sections. */
    | Resolved(sections: seq<LectureSection>)
      /** The request or the body parsing failed before the cache was touched. */
    | Rejected

  /** The events after which the loading banner is gone. */
  predicate ClearsLoading(e: Event)
  {
    e.Resolved? && |e.sections| > 0
  }

  function Step(w: Widget, e: Event): (r: Widget)
    ensures e.Resolved? ==> r.cache == e.sections
    ensures !e.Resolved? ==> r.cache == w.cache
    ensures r.loading <==> w.loading && !ClearsLoading(e)
    ensures e.Rejected? ==> r == w
    ensures !e.Rejected? ==> Coherent(r)
    ensures Coherent(w) ==> Coherent(r)
  {
    match e
    case ExpandClicked => Expand(w)
    case CollapseClicked => Collapse(w)
    case EffectRan => Collapse(w)
    case Resolved(sections) => Arrive(w, sections)
    case Rejected => w
  }

  /** The state after the events `es`, applied in order from `w`. */
  function Run(w: Widget, es: seq<Event>): (r: Widget)
    ensures Coherent(w) ==> Coherent(r)
    ensures r.loading ==> w.loading
    decreases |es|
  {
    if |es| == 0 then w else Step(Run(w, es[..|es| - 1]), es[|es| - 1])
  }

  /** Running two event sequences one after the other is running their
      concatenation. */
  lemma {:induction false} RunConcat(w: Widget, a: seq<Event>, b: seq<Event>)
    ensures Run(w, a + b) == Run(Run(w, a), b)
    decreases |b|
  {
    if |b| > 0 {
      var b' := b[..|b| - 1];
      assert (a + b)[..|a + b| - 1] == a + b';
      RunConcat(w, a, b');
    } else {
      assert a + b == a;
    }
  }

  /** The loading banner is still up after a run exactly when it was up
      before and no response in the run carried a section. */
  lemma {:induction false} LoadingIffNoNonEmptyResponse(w: Widget, es: seq<Event>)
    ensures Run(w, es).loading <==> w.loading && forall i :: 0 <= i < |es| ==> !ClearsLoading(es[i])
    decreases |es|
  {
    if |es| > 0 {
      var init := es[..|es| - 1];
      LoadingIffNoNonEmptyResponse(w, init);
      assert forall i :: 0 <= i < |init| ==> init[i] == es[i];
    }
  }

  /** Responses overwrite the cache in the order they settle: the last one to
      arrive wins, whichever request it answered. */
  lemma {:induction false} LastResponseWins(w: Widget, es: seq<Event>, k: nat)
    requires k < |es| && es[k].Resolved?
    requires forall j :: k < j < |es| ==> !es[j].Resolved?
    ensures Run(w, es).cache == es[k].sections
    decreases |es|
  {
    if k < |es| - 1 {
      var init := es[..|es| - 1];
      assert init[k] == es[k];
      LastResponseWins(w, init, k);
    }
  }

  /** Without a response the cache keeps what it held. */
  lemma {:induction false} CacheKeptWithoutResponse(w: Widget, es: seq<Event>)
    requires forall j :: 0 <= j < |es| ==> !es[j].Resolved?
    ensures Run(w, es).cache == w.cache
    decreases |es|
  {
    if |es| > 0 {
      CacheKeptWithoutResponse(w, es[..|es| - 1]);
    }
  }

  /** Once the mount effect has run, every later state is coherent. */
  lemma CoherentAfterMount(leftover: seq<LectureSection>, es: seq<Event>)
    ensures Coherent(Run(Mounted(leftover), [EffectRan] + es))
  {
    RunConcat(Mounted(leftover), [EffectRan], es);
  }

  /** The mount effect shows the preview of a cache an earlier mount left,
      before any response for this course has come back, and the banner
      stays up. */
  lemma MountShowsLeftover(leftover: seq<LectureSection>)
    requires |leftover| > 0
    ensures var w := Run(Mounted(leftover), [EffectRan]);
      ShowsPreview(w.visible, leftover) && w.loading && !w.expanded
  {
  }

  /** A changed course re-runs the effect, which does not put the loading
      banner back up. */
  lemma CourseChangeKeepsLoadingFlag(w: Widget)
    ensures Step(w, EffectRan).loading == w.loading
  {
  }

  /** While every response is empty the banner never comes down: a first
      mount whose course has no sections stays loading for good. */
  lemma EmptyResponsesKeepLoading(es: seq<Event>)
    requires forall i :: 0 <= i < |es| ==> !es[i].Resolved? || es[i].sections == []
    ensures Run(Mounted([]), [EffectRan] + es).loading
    ensures Run(Mounted([]), [EffectRan] + es).visible == []
  {
    RunConcat(Mounted([]), [EffectRan], es);
    LoadingIffNoNonEmptyResponse(Run(Mounted([]), [EffectRan]), es);
    NothingShownWithoutSections(Run(Mounted([]), [EffectRan]), es);
  }

  /** With no section ever arriving and nothing on screen, nothing is ever shown. */
  lemma {:induction false} NothingShownWithoutSections(w: Widget, es: seq<Event>)
    requires w.cache == [] && w.visible == []
    requires forall i :: 0 <= i < |es| ==> !es[i].Resolved? || es[i].sections == []
    ensures Run(w, es).cache == [] && Run(w, es).visible == []
    decreases |es|
  {
    if |es| > 0 {
      var init := es[..|es| - 1];
      assert forall i :: 0 <= i < |init| ==> init[i] == es[i];
      NothingShownWithoutSections(w, init);
    }
  }

  /** Three sections: the first two when collapsed, all three when expanded,
      and the first two again after collapsing. */
  lemma ThreeSections(leftover: seq<LectureSection>, a: LectureSection, b: LectureSection, c: LectureSection)
    ensures var w := Run(Mounted(leftover), [EffectRan, Resolved([a, b, c])]);
      && w.visible == [a, b] && !w.loading && !w.expanded
      && Step(w, ExpandClicked).visible == [a, b, c]
      && Step(Step(w, ExpandClicked), CollapseClicked).visible == [a, b]
  {
  }

  /** One section is shown alone, collapsed or expanded. */
  lemma OneSection(leftover: seq<LectureSection>, a: LectureSection)
    ensures var w := Run(Mounted(leftover), [EffectRan, Resolved([a])]);
      w.visible == [a] && !w.loading && Step(w, ExpandClicked).visible == [a]
  {
  }

  /** After the course changes to one without sections, the previous course's
      sections stay on screen while the cache is empty, and no banner is up. */
  lemma StaleSectionsAfterEmptyResponse(a: LectureSection, b: LectureSection)
    ensures var w := Run(Mounted([]), [EffectRan, Resolved([a, b]), EffectRan, Resolved([])]);
      w.cache == [] && w.visible == [a, b] && !w.loading
  {
    var es := [EffectRan, Resolved([a, b]), EffectRan, Resolved([])];
    assert es[..3] == [EffectRan, Resolved([a, b]), EffectRan];
    assert es[..3][..2] == [EffectRan, Resolved([a, b])];
    assert es[..3][..2][..1] == [EffectRan];
    var shown := Run(Mounted([]), es[..3][..2]);
    assert shown.visible == [a, b] && !shown.loading;
  }
}
