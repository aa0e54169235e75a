# Newsletter schema and curriculum viewer, in Dafny

This project models the two pieces of the site that have checkable behaviour.

- **The newsletter content schema** (`src/collections/newsletters.ts`). At build time every newsletter record is validated against this schema. The `articles` and `courses` reference arrays must not repeat an entry. The description is at most 200 characters. The title is 30 to 70 characters. The hero image is at least 1200×630 with a width-to-height ratio of exactly 1.91. Both the record and its `heroImage` object are closed: they reject undeclared keys. `Newsletters.Validate` lists every issue. It gathers them field by field, in the order the fields are declared; no property depends on that order. `Newsletters.SafeParse` returns the record or that list. `Newsletters.Conforms` restates the schema as one declarative predicate. The lemmas show that validation reports nothing exactly when the record conforms, and that each authored message appears exactly when its check fails.
- **The curriculum viewer** (`src/components/CourseCurriculumHelper.tsx`). It caches the fetched lecture sections in a module-level variable, so the cache outlives any one mounted component. It shows either the first two sections (collapsed) or all of them (expanded). A loading banner stays up until a response with at least one section arrives. `CourseCurriculum` models the state and the three transitions: expand, collapse, and the arrival of a parsed response. `CurriculumRuns` models event sequences: clicks, the effect that runs on mount and on every course change, and the request settling or failing. It proves what holds along any such sequence.

The model follows the code, including behaviour that looks unintended:

- A 1300×680 image fails the ratio test, because 1300/680 ≈ 1.9118 is not exactly 1.91 (`Newsletters.HeroImageExamples`).
- A collapse over an empty cache leaves the visible list as it was.
- A response with no sections leaves the loading flag set (`CurriculumRuns.EmptyResponsesKeepLoading`).
- The mount effect collapses onto whatever cache an earlier mount left behind. The previous course's sections can therefore appear before this course's response arrives (`CurriculumRuns.MountShowsLeftover`).
- A course change does not set loading again, and the previous course's sections stay visible when the new course has none (`CurriculumRuns.CourseChangeKeepsLoadingFlag`, `CurriculumRuns.StaleSectionsAfterEmptyResponse`).

## Model

| member | source | states |
|---|---|---|
| Uniqueness.Elems | src/collections/newsletters.ts:10 | the set built from an array holds exactly the values occurring in it |
| Uniqueness.ElemsSize | src/collections/newsletters.ts:10 | the set built from an array is never larger than the array, and it is equally large exactly when no two positions hold the same value |
| Newsletters.UniqueRefsIssues | src/collections/newsletters.ts:8-17 | a reference array yields no issue exactly when no reference repeats; otherwise it yields the one authored message at that field's path |
| Newsletters.DescriptionIssues | src/collections/newsletters.ts:18-20 | the description is accepted exactly when it has at most 200 characters, so length 200 passes and 201 fails |
| Newsletters.ImageIssues | src/collections/newsletters.ts:24-30 | the size message appears exactly when width < 1200 or height < 630; the ratio message appears exactly when width/height is not exactly 1.91; both refinements run, so one image can collect both, and no other issue appears |
| Newsletters.RatioCrossMultiplied | src/collections/newsletters.ts:28 | the exact-rational test width/height == 1.91 on a non-zero height is equivalent to 100·width == 191·height; a zero height never passes |
| Newsletters.RecordKeys | src/collections/newsletters.ts:7-41 | the key set of a record always holds every declared key, and its undeclared keys are exactly the authored extra keys |
| Newsletters.HeroKeys | src/collections/newsletters.ts:22-33 | the key set of the hero image object always holds image and alt, and its undeclared keys are exactly the authored extra keys |
| Newsletters.StrictIssues | src/collections/newsletters.ts:41 | a closed object yields no issue exactly when its keys are all declared; otherwise one issue naming precisely the undeclared keys |
| Newsletters.HeroImageIssues | src/collections/newsletters.ts:22-33 | the hero image object is accepted exactly when size and ratio hold and it has no key besides image and alt |
| Newsletters.TitleIssues | src/collections/newsletters.ts:35-38 | the too-short message appears exactly when the title is under 30 characters, the too-long one exactly when it is over 70; the title is accepted exactly when 30 ≤ length ≤ 70; at most one issue appears, and only these two messages |
| Newsletters.Validate | src/collections/newsletters.ts:6-41 | a record has no issues exactly when it conforms to every field bound, refinement and closedness rule of the schema |
| Newsletters.SafeParse | src/collections/newsletters.ts:5-41 | parsing succeeds with the record unchanged exactly when it conforms, and otherwise fails with the non-empty list of all its issues |
| Newsletters.IssueOrigin | src/collections/newsletters.ts:7-41 | every issue of a record comes from the check of the field its path names, and every issue of that check is reported |
| Newsletters.ReferenceIssueIffDuplicate | src/collections/newsletters.ts:8-17 | "All articles must be unique" and "All courses must be unique" are reported exactly when the respective array has a repeated reference |
| Newsletters.LengthIssueIffOutOfBounds | src/collections/newsletters.ts:18-38 | the description and both title messages are reported exactly when the length bound each guards is broken |
| Newsletters.HeroIssueIffRefinementFails | src/collections/newsletters.ts:24-30 | the hero-image size and ratio messages are reported exactly when those refinements fail |
| Newsletters.UnknownKeysIssueIffUndeclaredKey | src/collections/newsletters.ts:22-41 | the record, and separately the hero image, reports an unknown-keys issue naming exactly its undeclared keys, and does so exactly when some key is outside its declared set |
| Newsletters.HeroImageExamples | src/collections/newsletters.ts:25-30 | 1200×628 fails both size and ratio; 1200×630 passes size; 1910×1000 passes; 1300×680 and 1300×700 fail only the ratio; 0×0 fails the ratio |
| CourseCurriculum.CollapsedView | src/components/CourseCurriculumHelper.tsx:163-167 | over a non-empty cache the result is the cache's first min(2, length) sections; over an empty cache it is the list already on screen |
| CourseCurriculum.Mounted | src/components/CourseCurriculumHelper.tsx:66-71 | a fresh component shows nothing, is collapsed and loading, and the module cache keeps what an earlier mount left |
| CourseCurriculum.Expand | src/components/CourseCurriculumHelper.tsx:156-159 | expand shows the whole cache and marks the view expanded, leaving cache and loading flag alone |
| CourseCurriculum.Collapse | src/components/CourseCurriculumHelper.tsx:161-168 | collapse always clears the expanded flag; over a non-empty cache it shows the cache's first min(2, length) sections; over an empty cache the visible list is untouched; cache and loading flag unchanged |
| CourseCurriculum.Arrive | src/components/CourseCurriculumHelper.tsx:177-186 | a response overwrites the cache and clears the expanded flag; the loading flag is cleared exactly when the response has a section; a non-empty response shows its first min(2, length) sections, an empty one leaves the visible list untouched |
| CourseCurriculum.CollapseIdempotent | src/components/CourseCurriculumHelper.tsx:161-168 | collapsing twice equals collapsing once |
| CourseCurriculum.CollapseAfterExpand | src/components/CourseCurriculumHelper.tsx:156-168 | collapse after expand equals a single collapse exactly when the cache is non-empty or nothing is on screen |
| CourseCurriculum.ExpandAfterCollapse | src/components/CourseCurriculumHelper.tsx:156-168 | expand after collapse equals a single expand |
| CourseCurriculum.TransitionsEstablishCoherent | src/components/CourseCurriculumHelper.tsx:156-186 | after any expand, collapse or response, the expanded view shows the whole cache and the collapsed view over a non-empty cache shows its preview |
| CourseCurriculum.MountedCoherentIffNoLeftover | src/components/CourseCurriculumHelper.tsx:66-71 | a freshly mounted component agrees with the cache exactly when the cache left by an earlier mount is empty |
| CurriculumRuns.Step | src/components/CourseCurriculumHelper.tsx:156-195 | only a response changes the cache, and it installs its own sections; the loading flag survives an event exactly unless the event is a non-empty response; a failed request changes nothing; every other event leaves the screen coherent with the cache |
| CurriculumRuns.Run | src/components/CourseCurriculumHelper.tsx:170-196 | a run of events keeps the screen coherent with the cache if it started so, and never turns the loading flag back on |
| CurriculumRuns.RunConcat | src/components/CourseCurriculumHelper.tsx:170-196 | running two event sequences one after the other is running their concatenation |
| CurriculumRuns.LoadingIffNoNonEmptyResponse | src/components/CourseCurriculumHelper.tsx:177-186 | after a run the loading flag is set exactly when it was set before and no response in the run had a section |
| CurriculumRuns.LastResponseWins | src/components/CourseCurriculumHelper.tsx:174-177 | after a run the cache holds the sections of the last response to arrive, whatever order the requests were made in |
| CurriculumRuns.CacheKeptWithoutResponse | src/components/CourseCurriculumHelper.tsx:174-177 | a run with no response leaves the cache as it was |
| CurriculumRuns.CoherentAfterMount | src/components/CourseCurriculumHelper.tsx:193-195 | once the mount effect has run, every reachable state has the screen coherent with the cache |
| CurriculumRuns.MountShowsLeftover | src/components/CourseCurriculumHelper.tsx:193-195 | the mount effect shows the preview of a non-empty cache left by an earlier mount while still loading |
| CurriculumRuns.CourseChangeKeepsLoadingFlag | src/components/CourseCurriculumHelper.tsx:170-196 | re-running the effect on a course change leaves the loading flag as it was |
| CurriculumRuns.EmptyResponsesKeepLoading | src/components/CourseCurriculumHelper.tsx:177-186 | on a first mount, while every response is empty, the loading flag stays set and nothing is shown |
| CurriculumRuns.NothingShownWithoutSections | src/components/CourseCurriculumHelper.tsx:163-185 | with an empty cache and nothing on screen, a run in which no section arrives keeps both empty |
| CurriculumRuns.ThreeSections | src/components/CourseCurriculumHelper.tsx:156-186 | with three sections the view shows the first two, then all three after expand, then the first two again after collapse |
| CurriculumRuns.OneSection | src/components/CourseCurriculumHelper.tsx:156-186 | with one section, that section alone is shown both collapsed and expanded, and loading is over |
| CurriculumRuns.StaleSectionsAfterEmptyResponse | src/components/CourseCurriculumHelper.tsx:177-196 | after a course with two sections, a course change answered with no sections leaves the old two sections on screen over an empty cache, with no loading banner |

## Left out

- Reference resolution and image loading: a reference id is a plain string compared by value. If the content library turns each id into a fresh object before the refinement runs, `new Set` compares identities and repeats are never caught; the model assumes plain string ids. Whether each id resolves to an existing record is not modelled. An image is reduced to its integer pixel size.
- Field type checking: every declared field is taken to be present and of the right type, so a record's key set always holds the declared keys. `excerpt`, `alt` and `publishedDate` carry no checks beyond that. The "Required" and wrong-type issues of the schema library are therefore not modelled.
- Newsletters.RatioCrossMultiplied: states the ratio check over exact rationals, not IEEE doubles. For integer sizes below about 10^13 pixels, the double division equals the literal 1.91 exactly when 100·width == 191·height, so the two agree at every realistic size.
- String lengths count Unicode scalar values (`seq<char>`). The source counts UTF-16 code units, so a title with characters outside the Basic Multilingual Plane has a different length here.
- Issue order: the model lists issues field by field in declaration order. The order the schema library really reports them in is not established, for example if the image or reference loaders resolve asynchronously. No contract depends on the order.
- Issue messages of the schema library's own making are not modelled: an unknown-keys issue carries the set of unknown keys rather than a formatted message. Issue codes (custom, too_small, too_big) are not distinguished.
- Network I/O, JSON decoding and React's state scheduling: a settled request is one atomic event, and a failed fetch or parse is an event that changes nothing. Races between overlapping requests appear only as the order of `Resolved` events.
- A response body without `updatedLectureSections` is not modelled. In the source it stores an undefined cache and then throws.
- The cache is shared by every mounted instance of the component. The model follows one instance; other instances appear only through the leftover cache a mount starts with.
- Rendering (markup, styling, the "Start" links, which toggle button is shown) is not modelled. Neither is the commented-out third-party API code.
- The footer and author-bio components and the collection registry have no logic to model.
