/** The content schema of one newsletter record: two reference arrays that
    must not repeat an entry, bounded description and title lengths, a hero
    image with a minimum size and an exact 1.91:1 aspect ratio, and closed
    objects that reject keys the schema does not declare.

    Validation accumulates every failure, in the order the schema visits its
    fields, instead of stopping at the first one. */
module Newsletters {
  import opened Uniqueness

  /** Identifier of a record in another collection; only compared for equality. */
  type ReferenceId = string

  /** A loaded image, reduced to its pixel size. */
  datatype Image = Image(width: nat, height: nat)

  /** The publication date; no check looks inside it. */
  datatype Date = Date(epochMillis: int)

  /** The nested `heroImage` object. `image` and `alt` are the values of its
      two declared keys; `otherKeys` names any further keys the authored
      object carries (a declared name there is the same key again). */
  datatype HeroImage = HeroImage(image: Image, alt: string, otherKeys: set<string>)

  /** One authored newsletter record. Every declared field is present and of
      the right type; `otherKeys` names any further keys of the authored
      object (a declared name there is the same key again). */
  datatype Newsletter = Newsletter(
    articles: seq<ReferenceId>,
    courses: seq<ReferenceId>,
    description: string,
    excerpt: string,
    heroImage: HeroImage,
    publishedDate: Date,
    title: string,
    otherKeys: set<string>)

  const NewsletterKeys: set<string> :=
    {"articles", "courses", "description", "excerpt", "heroImage", "publishedDate", "title"}
  const HeroImageKeys: set<string> := {"image", "alt"}

  const MaxDescription: nat := 200
  const MinTitle: nat := 30
  const MaxTitle: nat := 70
  const MinHeroWidth: nat := 1200
  const MinHeroHeight: nat := 630

  const ArticlesNotUnique := "All articles must be unique"
  const CoursesNotUnique := "All courses must be unique"
  const DescriptionTooLong := "Description must be at most 200 characters"
  const HeroTooSmall := "Hero image must be at least 1200x630"
  const HeroBadRatio := "Hero image aspect ratio must be 1.91:1"
  const TitleTooShort := "Title must be at least 30 characters"
  const TitleTooLong := "Title must be at most 70 characters"

  /** The key set of the authored record: the declared keys, all present,
      plus whatever else it carries. */
  function RecordKeys(n: Newsletter): (r: set<string>)
    ensures NewsletterKeys <= r
    ensures forall k :: k in r && k !in NewsletterKeys <==> k in n.otherKeys && k !in NewsletterKeys
  {
    NewsletterKeys + n.otherKeys
  }

  /** The key set of the authored `heroImage` object. */
  function HeroKeys(h: HeroImage): (r: set<string>)
    ensures HeroImageKeys <= r
    ensures forall k :: k in r && k !in HeroImageKeys <==> k in h.otherKeys && k !in HeroImageKeys
  {
    HeroImageKeys + h.otherKeys
  }

  /** One validation failure, located by its path from the record root. */
  datatype Issue =
    | Failed(path: seq<string>, message: string)
    | UnrecognizedKeys(path: seq<string>, unknown: set<string>)

  /** The result of validating a record: the record itself, or every issue found. */
  datatype ParseResult =
    | Success(value: Newsletter)
    | Failure(issues: seq<Issue>)

  /** The aspect-ratio refinement read over exact rationals: width divided by
      height is 1.91. A zero height divides to Infinity or NaN, never 1.91. */
  predicate RatioIs191(img: Image)
  {
    img.height > 0 && (img.width as real) / (img.height as real) == 1.91
  }

  /** The record as the schema means it: every field bound and refinement
      holds and neither object carries an undeclared key. */
  predicate Conforms(n: Newsletter)
  {
    && NoDuplicates(n.articles)
    && NoDuplicates(n.courses)
    && |n.description| <= MaxDescription
    && n.heroImage.image.width >= MinHeroWidth
    && n.heroImage.image.height >= MinHeroHeight
    && RatioIs191(n.heroImage.image)
    && HeroKeys(n.heroImage) <= HeroImageKeys
    && MinTitle <= |n.title| <= MaxTitle
    && RecordKeys(n) <= NewsletterKeys
  }

  /** The uniqueness refinement on a reference array: the set built from the
      items must be as large as the array. */
  function UniqueRefsIssues(field: string, items: seq<ReferenceId>, message: string): (r: seq<Issue>)
    ensures r == [] <==> NoDuplicates(items)
    ensures r != [] ==> r == [Failed([field], message)]
  {
    ElemsSize(items);
    if |Elems(items)| == |items| then [] else [Failed([field], message)]
  }

  /** The `max(200)` bound on the description. */
  function DescriptionIssues(description: string): (r: seq<Issue>)
    ensures r == [] <==> |description| <= MaxDescription
    ensures r != [] ==> r == [Failed(["description"], DescriptionTooLong)]
  {
    if |description| > MaxDescription then [Failed(["description"], DescriptionTooLong)] else []
  }

  /** The two refinements on the hero image. The second runs even when the
      first fails, so an image can collect both issues. */
  function ImageIssues(img: Image): (r: seq<Issue>)
    ensures Failed(["heroImage", "image"], HeroTooSmall) in r <==> img.width < MinHeroWidth || img.height < MinHeroHeight
    ensures Failed(["heroImage", "image"], HeroBadRatio) in r <==> !RatioIs191(img)
    ensures r == [] <==> img.width >= MinHeroWidth && img.height >= MinHeroHeight && RatioIs191(img)
    ensures |r| <= 2
    ensures forall i :: i in r ==>
      i == Failed(["heroImage", "image"], HeroTooSmall) || i == Failed(["heroImage", "image"], HeroBadRatio)
  {
    RatioCrossMultiplied(img);
    var sizeIssues :=
      if img.width >= MinHeroWidth && img.height >= MinHeroHeight then []
      else [Failed(["heroImage", "image"], HeroTooSmall)];
    var ratioIssues :=
      if img.height != 0 && 100 * img.width == 191 * img.height then []
      else [Failed(["heroImage", "image"], HeroBadRatio)];
    sizeIssues + ratioIssues
  }

  /** Keys of a closed object that its schema does not declare, reported as
      one issue at the object's path. */
  function StrictIssues(path: seq<string>, keys: set<string>, declared: set<string>): (r: seq<Issue>)
    ensures r == [] <==> keys <= declared
    ensures r != [] ==> r == [UnrecognizedKeys(path, keys - declared)]
  {
    if keys <= declared then [] else [UnrecognizedKeys(path, keys - declared)]
  }

  /** The closed `heroImage` object: its image refinements, then any unknown keys. */
  function HeroImageIssues(h: HeroImage): (r: seq<Issue>)
    ensures r == [] <==>
      h.image.width >= MinHeroWidth && h.image.height >= MinHeroHeight && RatioIs191(h.image) && HeroKeys(h) <= HeroImageKeys
  {
    ImageIssues(h.image) + StrictIssues(["heroImage"], HeroKeys(h), HeroImageKeys)
  }

  /** The `min(30)` and `max(70)` bounds on the title. */
  function TitleIssues(title: string): (r: seq<Issue>)
    ensures Failed(["title"], TitleTooShort) in r <==> |title| < MinTitle
    ensures Failed(["title"], TitleTooLong) in r <==> |title| > MaxTitle
    ensures r == [] <==> MinTitle <= |title| <= MaxTitle
    ensures |r| <= 1
    ensures forall i :: i in r ==> i == Failed(["title"], TitleTooShort) || i == Failed(["title"], TitleTooLong)
  {
    (if |title| < MinTitle then [Failed(["title"], TitleTooShort)] else [])
    + (if |title| > MaxTitle then [Failed(["title"], TitleTooLong)] else [])
  }

  /** Every issue of a record. The model lists them field by field in the
      order the schema declares the fields, each closed object's unknown-keys
      issue after its own fields; no property below depends on that order. */
  function Validate(n: Newsletter): (r: seq<Issue>)
    ensures r == [] <==> Conforms(n)
  {
    UniqueRefsIssues("articles", n.articles, ArticlesNotUnique)
    + UniqueRefsIssues("courses", n.courses, CoursesNotUnique)
    + DescriptionIssues(n.description)
    + HeroImageIssues(n.heroImage)
    + TitleIssues(n.title)
    + StrictIssues([], RecordKeys(n), NewsletterKeys)
  }

  /** Validation as the build consumes it: the record when nothing failed,
      otherwise the non-empty list of issues. */
  function SafeParse(n: Newsletter): (r: ParseResult)
    ensures r.Success? <==> Conforms(n)
    ensures r.Success? ==> r.value == n
    ensures r.Failure? ==> |r.issues| > 0 && r.issues == Validate(n)
  {
    var issues := Validate(n);
    if issues == [] then Success(n) else Failure(issues)
  }

  /** The integer test `100 * width == 191 * height` on a non-zero height is
      exactly the rational equation width / height == 1.91. */
  lemma RatioCrossMultiplied(img: Image)
    ensures RatioIs191(img) <==> img.height != 0 && 100 * img.width == 191 * img.height
  {
    if img.height > 0 {
      var w, h := img.width as real, img.height as real;
      assert w / h == 1.91 <==> w == 1.91 * h;
      assert (100 * img.width) as real == 100.0 * w;
      assert (191 * img.height) as real == 191.0 * h;
    }
  }

  /** Which part of the schema can produce an issue, read off its path:
      an issue of the record is an issue of exactly the field it names. */
  lemma IssueOrigin(n: Newsletter, i: Issue)
    ensures i in Validate(n) <==>
      || (i.path == ["articles"] && i in UniqueRefsIssues("articles", n.articles, ArticlesNotUnique))
      || (i.path == ["courses"] && i in UniqueRefsIssues("courses", n.courses, CoursesNotUnique))
      || (i.path == ["description"] && i in DescriptionIssues(n.description))
      || (i.path == ["heroImage", "image"] && i in ImageIssues(n.heroImage.image))
      || (i.path == ["heroImage"] && i in StrictIssues(["heroImage"], HeroKeys(n.heroImage), HeroImageKeys))
      || (i.path == ["title"] && i in TitleIssues(n.title))
      || (i.path == [] && i in StrictIssues([], RecordKeys(n), NewsletterKeys))
  {
    var articles := UniqueRefsIssues("articles", n.articles, ArticlesNotUnique);
    var courses := UniqueRefsIssues("courses", n.courses, CoursesNotUnique);
    var description := DescriptionIssues(n.description);
    var image := ImageIssues(n.heroImage.image);
    var heroKeys := StrictIssues(["heroImage"], HeroKeys(n.heroImage), HeroImageKeys);
    var title := TitleIssues(n.title);
    var topKeys := StrictIssues([], RecordKeys(n), NewsletterKeys);
    assert Validate(n) == articles + courses + description + (image + heroKeys) + title + topKeys;
    assert i in Validate(n) <==>
      i in articles || i in courses || i in description || i in image || i in heroKeys || i in title || i in topKeys;
  }

  /** Each reference array reports its uniqueness message exactly when some
      reference in it repeats. */
  lemma ReferenceIssueIffDuplicate(n: Newsletter)
    ensures Failed(["articles"], ArticlesNotUnique) in Validate(n) <==> !NoDuplicates(n.articles)
    ensures Failed(["courses"], CoursesNotUnique) in Validate(n) <==> !NoDuplicates(n.courses)
  {
    IssueOrigin(n, Failed(["articles"], ArticlesNotUnique));
    IssueOrigin(n, Failed(["courses"], CoursesNotUnique));
  }

  /** The description and title report their messages exactly when the
      length bound they guard is broken. */
  lemma LengthIssueIffOutOfBounds(n: Newsletter)
    ensures Failed(["description"], DescriptionTooLong) in Validate(n) <==> |n.description| > MaxDescription
    ensures Failed(["title"], TitleTooShort) in Validate(n) <==> |n.title| < MinTitle
    ensures Failed(["title"], TitleTooLong) in Validate(n) <==> |n.title| > MaxTitle
  {
    IssueOrigin(n, Failed(["description"], DescriptionTooLong));
    IssueOrigin(n, Failed(["title"], TitleTooShort));
    IssueOrigin(n, Failed(["title"], TitleTooLong));
  }

  /** The hero image reports its size and ratio messages exactly when those
      refinements fail. */
  lemma HeroIssueIffRefinementFails(n: Newsletter)
    ensures Failed(["heroImage", "image"], HeroTooSmall) in Validate(n)
        <==> n.heroImage.image.width < MinHeroWidth || n.heroImage.image.height < MinHeroHeight
    ensures Failed(["heroImage", "image"], HeroBadRatio) in Validate(n) <==> !RatioIs191(n.heroImage.image)
  {
    IssueOrigin(n, Failed(["heroImage", "image"], HeroTooSmall));
    IssueOrigin(n, Failed(["heroImage", "image"], HeroBadRatio));
  }

  /** Both closed objects report an unknown-keys issue exactly when they carry
      a key outside their declared set, and it names precisely those keys. */
  lemma UnknownKeysIssueIffUndeclaredKey(n: Newsletter)
    ensures UnrecognizedKeys(["heroImage"], HeroKeys(n.heroImage) - HeroImageKeys) in Validate(n)
        <==> exists k :: k in HeroKeys(n.heroImage) && k !in HeroImageKeys
    ensures UnrecognizedKeys([], RecordKeys(n) - NewsletterKeys) in Validate(n)
        <==> exists k :: k in RecordKeys(n) && k !in NewsletterKeys
  {
    IssueOrigin(n, UnrecognizedKeys(["heroImage"], HeroKeys(n.heroImage) - HeroImageKeys));
    IssueOrigin(n, UnrecognizedKeys([], RecordKeys(n) - NewsletterKeys));
  }

  /** The hero-image bounds at and around the documented examples. */
  lemma HeroImageExamples()
    ensures ImageIssues(Image(1200, 628)) == [Failed(["heroImage", "image"], HeroTooSmall), Failed(["heroImage", "image"], HeroBadRatio)]
    ensures Failed(["heroImage", "image"], HeroTooSmall) !in ImageIssues(Image(1200, 630))
    ensures ImageIssues(Image(1910, 1000)) == []
    ensures ImageIssues(Image(1300, 680)) == [Failed(["heroImage", "image"], HeroBadRatio)]
    ensures ImageIssues(Image(1300, 700)) == [Failed(["heroImage", "image"], HeroBadRatio)]
    ensures Failed(["heroImage", "image"], HeroBadRatio) in ImageIssues(Image(0, 0))
  {
  }
}
