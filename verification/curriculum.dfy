/** The course-curriculum viewer: a list of lecture sections fetched from the
    server, kept in a cache that lives at module level (it outlives any one
    mounted widget), and shown either collapsed (the first two sections) or
    expanded (all of them).

    Each transition is one atomic update of the whole state. */
module CourseCurriculum {

  datatype Option<T> = None | Some(value: T)

  datatype AttachmentKind =
    | Text | NativeComments | Video | ImageFile | Pdf | Quiz | CodeDisplay | CodeEmbed | Upsell

  datatype Attachment = Attachment(
    id: int,
    name: Option<string>,
    kind: AttachmentKind,
    url: Option<string>,
    text: Option<string>,
    position: int,
    fileSize: Option<int>,
    fileExtension: Option<string>)

  datatype Lecture = Lecture(
    id: int,
    position: int,
    isPublished: bool,
    name: Option<string>,
    lectureSectionId: Option<int>,
    attachments: Option<seq<Attachment>>)

  datatype LectureSection = LectureSection(
    id: int,
    name: string,
    isPublished: bool,
    position: int,
    lectures: seq<Lecture>)

  /** The widget's state: `cache` is the module-level section list, the other
      three are the component's own state (the sections on screen, whether the
      full list is shown, whether the loading banner is up). */
  datatype Widget = Widget(
    cache: seq<LectureSection>,
    visible: seq<LectureSection>,
    expanded: bool,
    loading: bool)

  /** The smaller of two integers. */
  function Min(a: int, b: int): (m: int)
    ensures m <= a && m <= b
    ensures m == a || m == b
  {
    if a <= b then a else b
  }

  /** `visible` is what the collapsed view of `cache` shows: the leading
      sections of the cache, two of them or all of them if there are fewer. */
  predicate ShowsPreview(visible: seq<LectureSection>, cache: seq<LectureSection>)
  {
    visible <= cache && |visible| == Min(2, |cache|)
  }

  /** The branch that `collapse` and the fetch handler share: a single
      section is shown as is, two or more are cut to the first two, and an
      empty cache leaves what is on screen alone. */
  function CollapsedView(cache: seq<LectureSection>, visible: seq<LectureSection>): (r: seq<LectureSection>)
    ensures |cache| > 0 ==> ShowsPreview(r, cache)
    ensures |cache| == 0 ==> r == visible
  {
    if |cache| == 1 then cache
    else if |cache| >= 2 then [cache[0], cache[1]]
    else visible
  }

  /** A component freshly mounted: nothing on screen, collapsed, loading. The
      module cache keeps whatever an earlier mount left in it. */
  function Mounted(leftover: seq<LectureSection>): (r: Widget)
    ensures r.cache == leftover && r.visible == [] && !r.expanded && r.loading
  {
    Widget(leftover, [], false, true)
  }

  /** Show every cached section. */
  function Expand(w: Widget): (r: Widget)
    ensures r.expanded && r.visible == w.cache
    ensures r.cache == w.cache && r.loading == w.loading
  {
    w.(visible := w.cache, expanded := true)
  }

  /** Go back to the first two sections. With an empty cache nothing is
      assigned to the visible list, so it keeps its old contents. */
  function Collapse(w: Widget): (r: Widget)
    ensures !r.expanded && r.cache == w.cache && r.loading == w.loading
    ensures |w.cache| > 0 ==> ShowsPreview(r.visible, w.cache)
    ensures |w.cache| == 0 ==> r.visible == w.visible
  {
    w.(expanded := false, visible := CollapsedView(w.cache, w.visible))
  }

  /** A parsed response arrived: it replaces the cache and the collapsed view
      is applied. Only a non-empty response takes the loading banner down. */
  function Arrive(w: Widget, sections: seq<LectureSection>): (r: Widget)
    ensures r.cache == sections && !r.expanded
    ensures r.loading <==> w.loading && |sections| == 0
    ensures |sections| > 0 ==> ShowsPreview(r.visible, sections)
    ensures |sections| == 0 ==> r.visible == w.visible
  {
    var cache := sections;
    var loading := if |cache| == 1 || |cache| >= 2 then false else w.loading;
    Widget(cache, CollapsedView(cache, w.visible), false, loading)
  }

  /** The screen agrees with the cache: expanded shows all of it, collapsed
      over a non-empty cache shows its preview. A collapsed empty cache says
      nothing about the screen. */
  predicate Coherent(w: Widget)
  {
    && (w.expanded ==> w.visible == w.cache)
    && (!w.expanded && |w.cache| > 0 ==> ShowsPreview(w.visible, w.cache))
  }

  /** Collapsing twice is collapsing once. */
  lemma CollapseIdempotent(w: Widget)
    ensures Collapse(Collapse(w)) == Collapse(w)
  {
  }

  /** Collapsing after an expand gives the same state as collapsing straight
      away, unless the cache is empty and the screen still shows something:
      then the expand has already cleared it and the plain collapse keeps it. */
  lemma CollapseAfterExpand(w: Widget)
    ensures Collapse(Expand(w)) == Collapse(w) <==> |w.cache| > 0 || w.visible == []
  {
    if |w.cache| > 0 {
      assert Collapse(Expand(w)).visible == Collapse(w).visible;
    }
  }

  /** An expand wipes out whatever a preceding collapse did. */
  lemma ExpandAfterCollapse(w: Widget)
    ensures Expand(Collapse(w)) == Expand(w)
  {
  }

  /** Whatever state it starts from, each transition leaves the screen
      coherent with the cache. */
  lemma TransitionsEstablishCoherent(w: Widget, sections: seq<LectureSection>)
    ensures Coherent(Expand(w))
    ensures Coherent(Collapse(w))
    ensures Coherent(Arrive(w, sections))
  {
  }

  /** A fresh mount is coherent only while the leftover cache is empty: a
      cache left by an earlier mount is not on screen yet. */
  lemma MountedCoherentIffNoLeftover(leftover: seq<LectureSection>)
    ensures Coherent(Mounted(leftover)) <==> leftover == []
  {
  }
}
