/**
 * `PhotoDistributionEngine` (photoDistribution.ts): orders a gallery for a
 * three-column masonry layout. Each photo is analysed (aspect ratio, aspect
 * class, colour profile, visual weight), the photos are sorted heaviest
 * first, dealt greedily onto the column whose estimated height is smallest,
 * and the columns are read back row by row.
 *
 * The nine-bucket cycle, the distribution score and the aspect interleaving
 * are defined in the source but never called by `distributePhotos`; they are
 * modelled here as the standalone operations they are.
 */
module Distribution {
  import opened Wrappers
  import opened Text
  import opened Seqs
  import opened Sorting
  import opened Masonry
  import opened PhotoService

  const COLUMNS: nat := 3
  const DISTRIBUTION_CYCLE: nat := 9
  /** The assumed column width in pixels and the margin under each photo. */
  const COLUMN_WIDTH: real := 300.0
  const MARGIN: real := 24.0

  datatype AspectCategory = Wide | Square | Portrait | Tall | UltraTall

  /**
   * `AnalyzedPhoto`: the photo record together with the values the analysis
   * fills in. The record's own `aspectRatio` and `colorProfile` are overridden
   * in the source by the analysed ones held here.
   */
  datatype AnalyzedPhoto = AnalyzedPhoto(
    photo: Photo,
    aspectRatio: real,
    colorProfile: ColorProfile,
    aspectCategory: AspectCategory,
    visualWeight: real,
    distributionScore: int)

  // ---------------------------------------------------------------------------
  // Analysis (photoDistribution.ts:33-51, 219-276)
  // ---------------------------------------------------------------------------

  /** The source divides by the height (and later by the ratio) unguarded; these are the photos for which neither division is by zero. */
  predicate HasRatio(p: Photo) {
    (p.aspectRatio.Some? && p.aspectRatio.value != 0.0) || (p.width != 0 && p.height != 0)
  }

  /** A photo with positive dimensions and no negative stored ratio. */
  predicate WellFormed(p: Photo) {
    p.width > 0 && p.height > 0 && (p.aspectRatio.None? || p.aspectRatio.value >= 0.0)
  }

  /** `photo.aspectRatio || photo.width / photo.height`: a stored ratio of 0 counts as missing. */
  function AspectRatioOf(p: Photo): (r: real)
    requires HasRatio(p)
    ensures r != 0.0
    ensures p.aspectRatio.Some? && p.aspectRatio.value != 0.0 ==> r == p.aspectRatio.value
    ensures (p.aspectRatio.None? || p.aspectRatio.value == 0.0) ==> r * (p.height as real) == p.width as real
    ensures WellFormed(p) ==> r > 0.0
  {
    if p.aspectRatio.Some? && p.aspectRatio.value != 0.0 then p.aspectRatio.value
    else p.width as real / p.height as real
  }

  /** The bounds of each aspect class: a ratio belongs to a class when `lower <= ratio < upper`. */
  function LowerBound(c: AspectCategory): Option<real> {
    match c
    case Wide => None
    case Square => Some(0.7)
    case Portrait => Some(1.1)
    case Tall => Some(1.5)
    case UltraTall => Some(2.0)
  }

  function UpperBound(c: AspectCategory): Option<real> {
    match c
    case Wide => Some(0.7)
    case Square => Some(1.1)
    case Portrait => Some(1.5)
    case Tall => Some(2.0)
    case UltraTall => None
  }

  predicate InClass(ratio: real, c: AspectCategory) {
    (LowerBound(c).None? || LowerBound(c).value <= ratio) && (UpperBound(c).None? || ratio < UpperBound(c).value)
  }

  /** Position of a class from widest to tallest. */
  function Rank(c: AspectCategory): nat {
    match c
    case Wide => 0
    case Square => 1
    case Portrait => 2
    case Tall => 3
    case UltraTall => 4
  }

  /** `getAspectCategory` */
  function AspectCategoryOf(ratio: real): (c: AspectCategory)
    ensures InClass(ratio, c)
  {
    if ratio < 0.7 then Wide
    else if ratio < 1.1 then Square
    else if ratio < 1.5 then Portrait
    else if ratio < 2.0 then Tall
    else UltraTall
  }

  /** The classes do not overlap, so the class of a ratio is the only one containing it. */
  lemma ClassesDisjoint(ratio: real, c: AspectCategory, d: AspectCategory)
    requires InClass(ratio, c) && InClass(ratio, d)
    ensures c == d
  {
  }

  /** A taller ratio never lands in a wider class. */
  lemma AspectCategoryMonotone(a: real, b: real)
    requires a <= b
    ensures Rank(AspectCategoryOf(a)) <= Rank(AspectCategoryOf(b))
  {
  }

  const KNOWN_CATEGORIES: seq<string> := ["landscape", "portraits", "architecture", "abstract", "wildlife"]
  const PROFILE_ROTATION: seq<ColorProfile> := [Warm, Cool, Neutral, Vibrant, Muted]

  /** The sum of the character codes of `s`. */
  function CharCodeSum(s: string): nat {
    if s == [] then 0 else CharCodeSum(s[..|s| - 1]) + s[|s| - 1] as nat
  }

  /**
   * `inferColorProfile`: by the lower-cased category and filename for the
   * five known categories, otherwise a rotation keyed on the id.
   */
  function InferColorProfile(p: Photo): (r: ColorProfile)
    ensures ToLower(p.category) == "abstract" ==> r == Vibrant
    ensures ToLower(p.category) == "wildlife" ==> r == Muted
    ensures ToLower(p.category) == "landscape" ==> (r == Warm <==> Contains(ToLower(p.filename), "sunset") || Contains(ToLower(p.filename), "golden")) && r in {Warm, Cool}
    ensures ToLower(p.category) == "portraits" ==> (r == Neutral <==> Contains(ToLower(p.filename), "studio")) && r in {Neutral, Warm}
    ensures ToLower(p.category) == "architecture" ==> (r == Cool <==> Contains(ToLower(p.filename), "modern")) && r in {Cool, Neutral}
    ensures ToLower(p.category) !in KNOWN_CATEGORIES ==> r == PROFILE_ROTATION[CharCodeSum(p.id) % 5]
  {
    var category := ToLower(p.category);
    var filename := ToLower(p.filename);
    if category == "landscape" then
      if Contains(filename, "sunset") || Contains(filename, "golden") then Warm else Cool
    else if category == "portraits" then
      if Contains(filename, "studio") then Neutral else Warm
    else if category == "architecture" then
      if Contains(filename, "modern") then Cool else Neutral
    else if category == "abstract" then Vibrant
    else if category == "wildlife" then Muted
    else PROFILE_ROTATION[CharCodeSum(p.id) % |PROFILE_ROTATION|]
  }

  /** Inference only looks at the category and filename up to case, and at the id. */
  lemma InferenceDependsOnlyOn(p: Photo, q: Photo)
    requires ToLower(p.category) == ToLower(q.category) && ToLower(p.filename) == ToLower(q.filename) && p.id == q.id
    ensures InferColorProfile(p) == InferColorProfile(q)
  {
  }

  /** The per-category bonus of `calculateVisualWeight`; the switch matches the category exactly, without lower-casing. */
  function CategoryBonus(category: string): real {
    if category == "portraits" then 0.4
    else if category == "abstract" then 0.3
    else if category == "wildlife" then 0.2
    else if category == "architecture" then 0.1
    else 0.0
  }

  /** `calculateVisualWeight`: 1, plus 0.3 if tall, plus 0.2 if wide, plus the category bonus, capped at 2. */
  function VisualWeight(p: Photo, ratio: real): (w: real)
    ensures 1.0 <= w <= 1.7
    ensures ratio > 1.5 ==> w >= 1.3
    ensures ratio < 0.8 ==> w >= 1.2
    ensures 0.8 <= ratio <= 1.5 ==> w <= 1.4
  {
    var weight := 1.0 + (if ratio > 1.5 then 0.3 else 0.0) + (if ratio < 0.8 then 0.2 else 0.0) + CategoryBonus(p.category);
    if weight < 2.0 then weight else 2.0
  }

  /** The cap at 2 never binds: the heaviest photo is a tall portrait at 1.7. */
  lemma HeaviestPhoto(p: Photo, ratio: real)
    requires p.category == "portraits" && ratio > 1.5
    ensures VisualWeight(p, ratio) == 1.7
  {
  }

  /** One photo's analysis (the body of the `map` in `analyzePhotos`). */
  function Analyze(p: Photo): (a: AnalyzedPhoto)
    requires HasRatio(p)
    ensures a.photo == p && a.distributionScore == 0
    ensures a.aspectRatio != 0.0 && (WellFormed(p) ==> a.aspectRatio > 0.0)
    ensures InClass(a.aspectRatio, a.aspectCategory)
    ensures a.aspectRatio == AspectRatioOf(p) && a.aspectCategory == AspectCategoryOf(a.aspectRatio)
    ensures p.colorProfile.Some? ==> a.colorProfile == p.colorProfile.value
    ensures p.colorProfile.None? ==> a.colorProfile == InferColorProfile(p)
    ensures a.visualWeight == VisualWeight(p, a.aspectRatio) && 1.0 <= a.visualWeight <= 1.7
  {
    var ratio := AspectRatioOf(p);
    AnalyzedPhoto(p, ratio, p.colorProfile.GetOr(InferColorProfile(p)), AspectCategoryOf(ratio), VisualWeight(p, ratio), 0)
  }

  /** `analyzePhotos`: every photo analysed, in order. */
  function AnalyzePhotos(photos: seq<Photo>): (r: seq<AnalyzedPhoto>)
    requires forall i :: 0 <= i < |photos| ==> HasRatio(photos[i])
    ensures |r| == |photos|
    ensures forall i :: 0 <= i < |photos| ==> r[i] == Analyze(photos[i])
    ensures Measurable(r)
  {
    seq(|photos|, i requires 0 <= i < |photos| => Analyze(photos[i]))
  }

  function Ids(photos: seq<AnalyzedPhoto>): seq<string> {
    Map((a: AnalyzedPhoto) => a.photo.id, photos)
  }

  /** Analysis keeps the ids, in order. */
  lemma AnalysisKeepsIds(photos: seq<Photo>)
    requires forall i :: 0 <= i < |photos| ==> HasRatio(photos[i])
    ensures Ids(AnalyzePhotos(photos)) == PhotoIds(photos)
  {
  }

  // ---------------------------------------------------------------------------
  // Column balancing (photoDistribution.ts:133-182)
  // ---------------------------------------------------------------------------

  /** Every photo has a ratio the height estimate can divide by. */
  predicate Measurable(ps: seq<AnalyzedPhoto>) {
    forall i :: 0 <= i < |ps| ==> ps[i].aspectRatio != 0.0
  }

  /** The estimated rendered height: `300 / aspectRatio + 24`. */
  function EstimatedHeight(a: AnalyzedPhoto): real
    requires a.aspectRatio != 0.0
  {
    COLUMN_WIDTH / a.aspectRatio + MARGIN
  }

  lemma EstimatedHeightPositive(a: AnalyzedPhoto)
    requires a.aspectRatio > 0.0
    ensures EstimatedHeight(a) > MARGIN
  {
  }

  /** The summed estimated heights of a column. */
  function ColumnHeight(col: seq<AnalyzedPhoto>): real
    requires Measurable(col)
  {
    if col == [] then 0.0 else ColumnHeight(col[..|col| - 1]) + EstimatedHeight(col[|col| - 1])
  }

  /** The comparator `(a, b) => b.visualWeight - a.visualWeight`: `a` goes first when it is heavier. */
  function HeavierFirst(a: AnalyzedPhoto, b: AnalyzedPhoto): bool {
    a.visualWeight > b.visualWeight
  }

  lemma HeavierFirstIsStrictWeakOrder()
    ensures StrictWeakOrder(HeavierFirst)
  {
  }

  /** `[...photos].sort(...)`: heaviest first, equal weights in input order. */
  function SortByWeight(ps: seq<AnalyzedPhoto>): (r: seq<AnalyzedPhoto>)
    ensures multiset(r) == multiset(ps) && |r| == |ps|
  {
    Sort(ps, HeavierFirst)
  }

  /** The sorted photos are in non-increasing weight, and photos of equal weight keep their input order. */
  lemma SortByWeightOrders(ps: seq<AnalyzedPhoto>, y: AnalyzedPhoto)
    ensures forall i, j :: 0 <= i < j < |ps| ==> SortByWeight(ps)[i].visualWeight >= SortByWeight(ps)[j].visualWeight
    ensures TiesWith(SortByWeight(ps), y, HeavierFirst) == TiesWith(ps, y, HeavierFirst)
  {
    HeavierFirstIsStrictWeakOrder();
    SortSorted(ps, HeavierFirst);
    SortStable(ps, y, HeavierFirst);
  }

  lemma SortKeepsMeasurable(ps: seq<AnalyzedPhoto>)
    requires Measurable(ps)
    ensures Measurable(SortByWeight(ps))
  {
    PermutationPreserves(ps, SortByWeight(ps), (a: AnalyzedPhoto) => a.aspectRatio != 0.0);
  }

  /** The three columns and their running heights. */
  datatype Layout = Layout(columns: seq<seq<AnalyzedPhoto>>, heights: seq<real>)

  predicate ThreeColumns(l: Layout) {
    |l.columns| == COLUMNS && |l.heights| == COLUMNS
  }

  const EMPTY_LAYOUT: Layout := Layout([[], [], []], [0.0, 0.0, 0.0])

  /** `columnHeights.indexOf(Math.min(...columnHeights))`: the lowest index holding the minimum. */
  function ShortestColumn(heights: seq<real>): (k: nat)
    requires |heights| > 0
    ensures k < |heights|
    ensures forall j :: 0 <= j < |heights| ==> heights[k] <= heights[j]
    ensures forall j :: 0 <= j < k ==> heights[k] < heights[j]
  {
    if |heights| == 1 then 0
    else
      var k := ShortestColumn(heights[..|heights| - 1]);
      if heights[|heights| - 1] < heights[k] then |heights| - 1 else k
  }

  /** One step of the placement loop: the photo goes to the bottom of the shortest column, which grows by its estimated height. */
  function Place(l: Layout, a: AnalyzedPhoto): (r: Layout)
    requires ThreeColumns(l) && a.aspectRatio != 0.0
    ensures ThreeColumns(r)
    ensures forall c :: 0 <= c < COLUMNS ==> l.columns[c] <= r.columns[c]
  {
    var k := ShortestColumn(l.heights);
    Layout(l.columns[k := l.columns[k] + [a]], l.heights[k := l.heights[k] + EstimatedHeight(a)])
  }

  /**
   * The placement rule: the photo goes to a column of least height, the
   * leftmost of several; that column gains the photo at its bottom and its
   * height grows by the photo's estimate; the other columns are untouched.
   */
  lemma PlacementRule(l: Layout, a: AnalyzedPhoto)
    requires ThreeColumns(l) && a.aspectRatio != 0.0
    ensures exists k ::
      && 0 <= k < COLUMNS
      && (forall j :: 0 <= j < COLUMNS ==> l.heights[k] <= l.heights[j])
      && (forall j :: 0 <= j < k ==> l.heights[k] < l.heights[j])
      && Place(l, a).columns[k] == l.columns[k] + [a]
      && Place(l, a).heights[k] == l.heights[k] + EstimatedHeight(a)
      && (forall j :: 0 <= j < COLUMNS && j != k ==> Place(l, a).columns[j] == l.columns[j] && Place(l, a).heights[j] == l.heights[j])
  {
    var k := ShortestColumn(l.heights);
    assert Place(l, a).columns[k] == l.columns[k] + [a];
  }

  /** The layout after the placement loop has run over `ps`. */
  function Greedy(ps: seq<AnalyzedPhoto>): (l: Layout)
    requires Measurable(ps)
    ensures ThreeColumns(l)
  {
    if ps == [] then EMPTY_LAYOUT else Place(Greedy(ps[..|ps| - 1]), ps[|ps| - 1])
  }

  /** What `distributePhotos` returns. */
  function Distribution(photos: seq<Photo>): seq<AnalyzedPhoto>
    requires forall i :: 0 <= i < |photos| ==> HasRatio(photos[i])
  {
    var sorted := SortByWeight(AnalyzePhotos(photos));
    SortKeepsMeasurable(AnalyzePhotos(photos));
    RowMajor(Greedy(sorted).columns)
  }

  /** The placement loop places every photo exactly once. */
  lemma {:induction false} GreedyPermutation(ps: seq<AnalyzedPhoto>)
    requires Measurable(ps)
    ensures ColumnSum(Greedy(ps).columns) == multiset(ps)
  {
    if ps != [] {
      var init, a := ps[..|ps| - 1], ps[|ps| - 1];
      assert ps == init + [a];
      GreedyPermutation(init);
      var l := Greedy(init);
      var k := ShortestColumn(l.heights);
      ColumnsUpToAppend(l.columns, k, a, COLUMNS);
    }
  }

  lemma GreedyStep(ps: seq<AnalyzedPhoto>, i: nat)
    requires Measurable(ps) && i < |ps|
    ensures Measurable(ps[..i]) && Measurable(ps[..i + 1])
    ensures Greedy(ps[..i + 1]) == Place(Greedy(ps[..i]), ps[i])
  {
    assert ps[..i + 1][..i] == ps[..i];
  }

  /** Each running height is the summed estimated height of its column. */
  lemma {:induction false} GreedyHeights(ps: seq<AnalyzedPhoto>)
    requires Measurable(ps)
    ensures forall c :: 0 <= c < COLUMNS ==> Measurable(Greedy(ps).columns[c]) && Greedy(ps).heights[c] == ColumnHeight(Greedy(ps).columns[c])
  {
    if ps != [] {
      var init, a := ps[..|ps| - 1], ps[|ps| - 1];
      GreedyHeights(init);
      var l, r := Greedy(init), Greedy(ps);
      var k := ShortestColumn(l.heights);
      assert r == Place(l, a);
      forall c | 0 <= c < COLUMNS
        ensures Measurable(r.columns[c]) && r.heights[c] == ColumnHeight(r.columns[c])
      {
        if c == k {
          var col := l.columns[k] + [a];
          assert r.columns[c] == col && r.heights[c] == l.heights[k] + EstimatedHeight(a);
          assert col[..|col| - 1] == l.columns[k];
        } else {
          assert r.columns[c] == l.columns[c] && r.heights[c] == l.heights[c];
        }
      }
    }
  }

  /** The heights of a layout pairwise differ by at most `bound`. */
  predicate HeightsWithin(heights: seq<real>, bound: real) {
    forall i, j :: 0 <= i < |heights| && 0 <= j < |heights| ==> heights[i] - heights[j] <= bound
  }

  /** Placing a photo no taller than `bound` on a lowest column keeps the columns within `bound` of each other. */
  lemma {:induction false} GreedyBalanced(ps: seq<AnalyzedPhoto>, bound: real)
    requires Measurable(ps) && 0.0 <= bound
    requires forall i :: 0 <= i < |ps| ==> 0.0 <= EstimatedHeight(ps[i]) <= bound
    ensures HeightsWithin(Greedy(ps).heights, bound)
  {
    if ps != [] {
      GreedyBalanced(ps[..|ps| - 1], bound);
    }
  }

  /** Placement only ever appends: the columns of an earlier step are prefixes of the later ones. */
  lemma {:induction false} GreedyExtends(ps: seq<AnalyzedPhoto>, m: nat)
    requires Measurable(ps) && m <= |ps|
    ensures forall c :: 0 <= c < COLUMNS ==> Greedy(ps[..m]).columns[c] <= Greedy(ps).columns[c]
  {
    if m < |ps| {
      var init := ps[..|ps| - 1];
      assert init[..m] == ps[..m];
      GreedyExtends(init, m);
    } else {
      assert ps[..m] == ps;
    }
  }

  /** With positive heights, the first three photos open one column each, left to right. */
  lemma {:induction false} GreedyOpensColumns(ps: seq<AnalyzedPhoto>)
    requires Measurable(ps) && |ps| <= COLUMNS
    requires forall i :: 0 <= i < |ps| ==> EstimatedHeight(ps[i]) > 0.0
    ensures forall c :: 0 <= c < |ps| ==> Greedy(ps).columns[c] == [ps[c]] && Greedy(ps).heights[c] > 0.0
    ensures forall c :: |ps| <= c < COLUMNS ==> Greedy(ps).columns[c] == [] && Greedy(ps).heights[c] == 0.0
  {
    if ps != [] {
      var init := ps[..|ps| - 1];
      GreedyOpensColumns(init);
      var l := Greedy(init);
      var k := ShortestColumn(l.heights);
      assert l.heights[|init|] == 0.0;
      assert k == |init|;
    }
  }

  lemma {:induction false} OpenedRow(cols: seq<seq<AnalyzedPhoto>>, ps: seq<AnalyzedPhoto>, c: nat)
    requires |cols| == COLUMNS && |ps| <= COLUMNS && c <= COLUMNS
    requires forall j :: 0 <= j < |ps| ==> cols[j] == [ps[j]]
    requires forall j :: |ps| <= j < COLUMNS ==> cols[j] == []
    ensures RowPrefix(cols, 0, c) == ps[..Min(c, |ps|)]
  {
    if c > 0 {
      OpenedRow(cols, ps, c - 1);
      if c <= |ps| {
        assert ps[..c] == ps[..c - 1] + [ps[c - 1]];
      }
    }
  }

  /** Up to three photos come out in sorted order, one per column. */
  lemma {:induction false} FewPhotosKeepOrder(ps: seq<AnalyzedPhoto>)
    requires Measurable(ps) && |ps| <= COLUMNS
    requires forall i :: 0 <= i < |ps| ==> EstimatedHeight(ps[i]) > 0.0
    ensures RowMajor(Greedy(ps).columns) == ps
  {
    GreedyOpensColumns(ps);
    var cols := Greedy(ps).columns;
    if ps == [] {
      assert MaxLength(cols) == 0;
    } else {
      assert |cols[0]| == 1;
      assert MaxLength(cols) == 1;
      OpenedRow(cols, ps, COLUMNS);
      assert ps[..Min(COLUMNS, |ps|)] == ps;
    }
  }

  /** The first row of the layout is the three heaviest photos, in sorted order. */
  lemma {:induction false} FirstRowIsHeaviest(ps: seq<AnalyzedPhoto>)
    requires Measurable(ps) && |ps| >= COLUMNS
    requires forall i :: 0 <= i < |ps| ==> EstimatedHeight(ps[i]) > 0.0
    ensures |RowMajor(Greedy(ps).columns)| >= COLUMNS
    ensures RowMajor(Greedy(ps).columns)[..COLUMNS] == ps[..COLUMNS]
  {
    var first := ps[..COLUMNS];
    GreedyOpensColumns(first);
    GreedyExtends(ps, COLUMNS);
    var cols := Greedy(ps).columns;
    assert forall c :: 0 <= c < COLUMNS ==> cols[c][0] == ps[c];
    FullRowPrefix(cols, 0, COLUMNS);
    assert Row(cols, 0) == first;
    RowMajorStartsWithFirstRow(cols);
  }

  // ---------------------------------------------------------------------------
  // The engine's entry points (photoDistribution.ts:12-28, 116-128, 133-182)
  // ---------------------------------------------------------------------------

  /** `balanceColumnHeights`: sort by weight, run the placement loop, then read the columns row by row. */
  method BalanceColumnHeights(photos: seq<AnalyzedPhoto>) returns (result: seq<AnalyzedPhoto>)
    requires Measurable(photos)
    ensures Measurable(SortByWeight(photos))
    ensures result == RowMajor(Greedy(SortByWeight(photos)).columns)
    ensures multiset(result) == multiset(photos)
  {
    var sortedPhotos := SortByWeight(photos);
    SortKeepsMeasurable(photos);
    var columns, columnHeights := PlacePhotos(sortedPhotos);
    result := FlattenRowMajor(columns[..]);
    GreedyPermutation(sortedPhotos);
    RowMajorPermutation(columns[..]);
  }

  /** The placement loop of `balanceColumnHeights`, over the two arrays of three entries. */
  method PlacePhotos(sortedPhotos: seq<AnalyzedPhoto>) returns (columns: array<seq<AnalyzedPhoto>>, columnHeights: array<real>)
    requires Measurable(sortedPhotos)
    ensures columns[..] == Greedy(sortedPhotos).columns
    ensures columnHeights[..] == Greedy(sortedPhotos).heights
  {
    columns := new seq<AnalyzedPhoto>[COLUMNS](_ => []);
    columnHeights := new real[COLUMNS](_ => 0.0);
    assert columns[..] == EMPTY_LAYOUT.columns;
    assert columnHeights[..] == EMPTY_LAYOUT.heights;
    var i := 0;
    while i < |sortedPhotos|
      invariant 0 <= i <= |sortedPhotos|
      invariant columns[..] == Greedy(sortedPhotos[..i]).columns
      invariant columnHeights[..] == Greedy(sortedPhotos[..i]).heights
    {
      GreedyStep(sortedPhotos, i);
      PlacePhoto(columns, columnHeights, sortedPhotos[i]);
      i := i + 1;
    }
    assert sortedPhotos[..i] == sortedPhotos;
  }

  /** One pass of the placement loop's body: the photo goes to the shortest column, which grows by its height. */
  method PlacePhoto(columns: array<seq<AnalyzedPhoto>>, columnHeights: array<real>, photo: AnalyzedPhoto)
    requires columns.Length == COLUMNS && columnHeights.Length == COLUMNS
    requires photo.aspectRatio != 0.0
    modifies columns, columnHeights
    ensures columns[..] == Place(Layout(old(columns[..]), old(columnHeights[..])), photo).columns
    ensures columnHeights[..] == Place(Layout(old(columns[..]), old(columnHeights[..])), photo).heights
  {
    var photoHeight := COLUMN_WIDTH / photo.aspectRatio + MARGIN;
    var shortestColumnIndex := ShortestColumn(columnHeights[..]);
    columns[shortestColumnIndex] := columns[shortestColumnIndex] + [photo];
    columnHeights[shortestColumnIndex] := columnHeights[shortestColumnIndex] + photoHeight;
  }

  /** `distributePhotos` (with `smartDistribute`, whose final `map` copies each record unchanged). */
  method DistributePhotos(photos: seq<Photo>) returns (result: seq<AnalyzedPhoto>)
    requires forall i :: 0 <= i < |photos| ==> HasRatio(photos[i])
    ensures result == Distribution(photos)
    ensures multiset(result) == multiset(AnalyzePhotos(photos))
  {
    var analyzedPhotos := AnalyzePhotos(photos);
    result := BalanceColumnHeights(analyzedPhotos);
  }

  /** Every input photo comes out exactly once: the ids of the result are a permutation of the input's. */
  lemma DistributionKeepsIds(photos: seq<Photo>)
    requires forall i :: 0 <= i < |photos| ==> HasRatio(photos[i])
    ensures |Distribution(photos)| == |photos|
    ensures multiset(Ids(Distribution(photos))) == multiset(PhotoIds(photos))
  {
    var analyzed := AnalyzePhotos(photos);
    SortKeepsMeasurable(analyzed);
    var sorted := SortByWeight(analyzed);
    GreedyPermutation(sorted);
    RowMajorPermutation(Greedy(sorted).columns);
    assert |multiset(Distribution(photos))| == |multiset(analyzed)|;
    MapMultiset((a: AnalyzedPhoto) => a.photo.id, Distribution(photos), analyzed);
    AnalysisKeepsIds(photos);
  }

  predicate AllWellFormed(photos: seq<Photo>) {
    forall i :: 0 <= i < |photos| ==> WellFormed(photos[i])
  }

  lemma WellFormedHeights(photos: seq<Photo>)
    requires AllWellFormed(photos)
    ensures forall i :: 0 <= i < |photos| ==> HasRatio(photos[i])
    ensures forall i :: 0 <= i < |photos| ==> EstimatedHeight(AnalyzePhotos(photos)[i]) > 0.0
  {
    forall i | 0 <= i < |photos|
      ensures EstimatedHeight(AnalyzePhotos(photos)[i]) > 0.0
    {
      EstimatedHeightPositive(AnalyzePhotos(photos)[i]);
    }
  }

  /** Up to three well-formed photos come back heaviest first. */
  lemma FewPhotosSorted(photos: seq<Photo>)
    requires AllWellFormed(photos) && |photos| <= COLUMNS
    ensures forall i :: 0 <= i < |photos| ==> HasRatio(photos[i])
    ensures Distribution(photos) == SortByWeight(AnalyzePhotos(photos))
  {
    WellFormedHeights(photos);
    var analyzed := AnalyzePhotos(photos);
    SortKeepsMeasurable(analyzed);
    PermutationPreserves(analyzed, SortByWeight(analyzed), (a: AnalyzedPhoto) => a.aspectRatio != 0.0 && EstimatedHeight(a) > 0.0);
    FewPhotosKeepOrder(SortByWeight(analyzed));
  }

  /** With three or more well-formed photos, the first row shown is the three heaviest. */
  lemma FirstRowSorted(photos: seq<Photo>)
    requires AllWellFormed(photos) && |photos| >= COLUMNS
    ensures forall i :: 0 <= i < |photos| ==> HasRatio(photos[i])
    ensures |Distribution(photos)| >= COLUMNS
    ensures Distribution(photos)[..COLUMNS] == SortByWeight(AnalyzePhotos(photos))[..COLUMNS]
  {
    WellFormedHeights(photos);
    var analyzed := AnalyzePhotos(photos);
    SortKeepsMeasurable(analyzed);
    PermutationPreserves(analyzed, SortByWeight(analyzed), (a: AnalyzedPhoto) => a.aspectRatio != 0.0 && EstimatedHeight(a) > 0.0);
    FirstRowIsHeaviest(SortByWeight(analyzed));
  }

  /** The tallest estimated height among the photos (0 for none). */
  function TallestEstimate(ps: seq<AnalyzedPhoto>): (h: real)
    requires Measurable(ps)
    ensures 0.0 <= h
    ensures forall i :: 0 <= i < |ps| ==> EstimatedHeight(ps[i]) <= h
  {
    if ps == [] then 0.0
    else
      var m := TallestEstimate(ps[..|ps| - 1]);
      var e := EstimatedHeight(ps[|ps| - 1]);
      if m < e then e else m
  }

  /**
   * The balance the algorithm achieves: after every step of the placement
   * loop, no two columns differ in estimated height by more than the tallest
   * single photo.
   */
  lemma DistributionBalanced(photos: seq<Photo>, step: nat)
    requires AllWellFormed(photos) && step <= |photos|
    ensures forall i :: 0 <= i < |photos| ==> HasRatio(photos[i])
    ensures Measurable(SortByWeight(AnalyzePhotos(photos)))
    ensures HeightsWithin(Greedy(SortByWeight(AnalyzePhotos(photos))[..step]).heights, TallestEstimate(AnalyzePhotos(photos)))
  {
    WellFormedHeights(photos);
    var analyzed := AnalyzePhotos(photos);
    var bound := TallestEstimate(analyzed);
    SortKeepsMeasurable(analyzed);
    var sorted := SortByWeight(analyzed);
    PermutationPreserves(analyzed, sorted, (a: AnalyzedPhoto) => a.aspectRatio != 0.0 && 0.0 <= EstimatedHeight(a) <= bound);
    GreedyBalanced(sorted[..step], bound);
  }

  // ---------------------------------------------------------------------------
  // Aspect interleaving (photoDistribution.ts:187-214)
  // ---------------------------------------------------------------------------

  function OfCategory(c: AspectCategory): AnalyzedPhoto -> bool {
    (a: AnalyzedPhoto) => a.aspectCategory == c
  }

  /** The five aspect groups, in the order the source enumerates them. */
  function AspectGroups(ps: seq<AnalyzedPhoto>): (groups: seq<seq<AnalyzedPhoto>>)
    ensures |groups| == 5
    ensures forall g :: 0 <= g < 5 ==> forall i :: 0 <= i < |groups[g]| ==> Rank(groups[g][i].aspectCategory) == g
  {
    [Filter(ps, OfCategory(Wide)), Filter(ps, OfCategory(Square)), Filter(ps, OfCategory(Portrait)),
     Filter(ps, OfCategory(Tall)), Filter(ps, OfCategory(UltraTall))]
  }

  /** Every photo falls in exactly one group. */
  lemma AspectGroupsPartition(ps: seq<AnalyzedPhoto>)
    ensures ColumnSum(AspectGroups(ps)) == multiset(ps)
  {
    var groups := AspectGroups(ps);
    assert ColumnSum(groups) == multiset(groups[0]) + multiset(groups[1]) + multiset(groups[2]) + multiset(groups[3]) + multiset(groups[4]) by {
      assert ColumnsUpTo(groups, 1) == multiset(groups[0]);
      assert ColumnsUpTo(groups, 2) == ColumnsUpTo(groups, 1) + multiset(groups[1]);
      assert ColumnsUpTo(groups, 3) == ColumnsUpTo(groups, 2) + multiset(groups[2]);
      assert ColumnsUpTo(groups, 4) == ColumnsUpTo(groups, 3) + multiset(groups[3]);
    }
    forall x
      ensures ColumnSum(groups)[x] == multiset(ps)[x]
    {
      FilterMultiset(ps, OfCategory(Wide), x);
      FilterMultiset(ps, OfCategory(Square), x);
      FilterMultiset(ps, OfCategory(Portrait), x);
      FilterMultiset(ps, OfCategory(Tall), x);
      FilterMultiset(ps, OfCategory(UltraTall), x);
    }
  }

  /** `interleaveForDiversity`: the groups read row by row (one of each class in turn). */
  method InterleaveForDiversity(photos: seq<AnalyzedPhoto>) returns (result: seq<AnalyzedPhoto>)
    ensures result == RowMajor(AspectGroups(photos))
    ensures multiset(result) == multiset(photos)
  {
    var aspectGroups := AspectGroups(photos);
    result := FlattenRowMajor(aspectGroups);
    RowMajorPermutation(aspectGroups);
    AspectGroupsPartition(photos);
  }

  // ---------------------------------------------------------------------------
  // The nine-bucket cycle and its target patterns (photoDistribution.ts:92-111, 281-312)
  // ---------------------------------------------------------------------------

  const ASPECT_PATTERN: seq<AspectCategory> := [Square, Tall, Wide, Portrait, Square, Tall, Wide, Portrait, Square]
  const COLOR_PATTERN: seq<ColorProfile> := [Warm, Cool, Neutral, Vibrant, Muted, Warm, Cool, Neutral, Vibrant]
  const CATEGORY_PATTERN: seq<string> := ["landscape", "portraits", "architecture", "abstract", "wildlife", "landscape", "portraits", "architecture", "abstract"]

  /** `getTargetAspectBalance`, `getTargetColorBalance`, `getTargetCategoryBalance`: the pattern entry at `index % 9`. */
  function TargetAspect(index: nat): AspectCategory {
    ASPECT_PATTERN[index % |ASPECT_PATTERN|]
  }

  function TargetColor(index: nat): ColorProfile {
    COLOR_PATTERN[index % |COLOR_PATTERN|]
  }

  function TargetCategory(index: nat): string {
    CATEGORY_PATTERN[index % |CATEGORY_PATTERN|]
  }

  /** The targets repeat every nine buckets; no bucket ever asks for an ultra-tall photo, and the category targets are all known categories. */
  lemma TargetsPeriodic(index: nat)
    ensures TargetAspect(index + DISTRIBUTION_CYCLE) == TargetAspect(index)
    ensures TargetColor(index + DISTRIBUTION_CYCLE) == TargetColor(index)
    ensures TargetCategory(index + DISTRIBUTION_CYCLE) == TargetCategory(index)
    ensures TargetAspect(index) != UltraTall
    ensures TargetCategory(index) in KNOWN_CATEGORIES
  {
    assert (index + DISTRIBUTION_CYCLE) % DISTRIBUTION_CYCLE == index % DISTRIBUTION_CYCLE;
    var j := index % DISTRIBUTION_CYCLE;
    assert j in {0, 1, 2, 3, 4, 5, 6, 7, 8};
  }

  datatype DistributionBucket = DistributionBucket(
    index: nat,
    column: nat,
    period: nat,
    photos: seq<AnalyzedPhoto>,
    targetAspectBalance: AspectCategory,
    targetColorBalance: ColorProfile,
    targetCategoryBalance: string)

  /** `createDistributionBuckets`: bucket `i` sits in column `i % 3` of period `i / 3`. */
  method CreateDistributionBuckets() returns (buckets: seq<DistributionBucket>)
    ensures |buckets| == DISTRIBUTION_CYCLE
    ensures forall i :: 0 <= i < |buckets| ==>
      && buckets[i].index == i && buckets[i].photos == []
      && buckets[i].targetAspectBalance == TargetAspect(i)
      && buckets[i].targetColorBalance == TargetColor(i)
      && buckets[i].targetCategoryBalance == TargetCategory(i)
    ensures forall i :: 0 <= i < |buckets| ==> buckets[i].column == i % COLUMNS && buckets[i].period == i / COLUMNS
  {
    buckets := [];
    var i := 0;
    while i < DISTRIBUTION_CYCLE
      invariant 0 <= i <= DISTRIBUTION_CYCLE && |buckets| == i
      invariant forall j :: 0 <= j < i ==>
        && buckets[j].index == j && buckets[j].photos == []
        && buckets[j].column == j % COLUMNS && buckets[j].period == j / COLUMNS
        && buckets[j].targetAspectBalance == TargetAspect(j)
        && buckets[j].targetColorBalance == TargetColor(j)
        && buckets[j].targetCategoryBalance == TargetCategory(j)
    {
      var column := i % COLUMNS;
      var period := i / COLUMNS;
      buckets := buckets + [DistributionBucket(i, column, period, [], TargetAspect(i), TargetColor(i), TargetCategory(i))];
      i := i + 1;
    }
  }

  // ---------------------------------------------------------------------------
  // Distribution score (photoDistribution.ts:317-344)
  // ---------------------------------------------------------------------------

  /** `(p as any).visualWeight || 1`: a zero weight counts as 1. */
  function RecentWeight(p: AnalyzedPhoto): real {
    if p.visualWeight == 0.0 then 1.0 else p.visualWeight
  }

  function WeightSum(ps: seq<AnalyzedPhoto>): real {
    if ps == [] then 0.0 else WeightSum(ps[..|ps| - 1]) + RecentWeight(ps[|ps| - 1])
  }

  /** `previousPhotos.slice(-3)` */
  function LastThree(ps: seq<AnalyzedPhoto>): (r: seq<AnalyzedPhoto>)
    ensures |r| == if |ps| < 3 then |ps| else 3
    ensures r == ps[|ps| - |r|..]
  {
    if |ps| <= 3 then ps else ps[|ps| - 3..]
  }

  /** `previousPhotos.filter((_, i) => i % 3 === column)`: the earlier photos that fell in that column. */
  function InColumn(ps: seq<AnalyzedPhoto>, column: nat): (r: seq<AnalyzedPhoto>)
    ensures |r| == if column < COLUMNS then (|ps| + COLUMNS - 1 - column) / COLUMNS else 0
    ensures forall k :: 0 <= k < |r| ==> column + COLUMNS * k < |ps| && r[k] == ps[column + COLUMNS * k]
  {
    if |ps| == 0 then []
    else
      var n := |ps| - 1;
      assert column < COLUMNS ==> (n + COLUMNS - 1 - column) / COLUMNS + (if n % COLUMNS == column then 1 else 0) == (|ps| + COLUMNS - 1 - column) / COLUMNS;
      assert n % COLUMNS == column ==> n == column + COLUMNS * ((n + COLUMNS - 1 - column) / COLUMNS);
      InColumn(ps[..n], column) + (if n % COLUMNS == column then [ps[n]] else [])
  }

  /** The photo placed last in `column`, if any: the one at the highest index `i % 3 == column`. */
  lemma {:induction false} LastInColumn(ps: seq<AnalyzedPhoto>, column: nat, i: nat)
    requires i < |ps| && i % COLUMNS == column
    requires forall j :: i < j < |ps| ==> j % COLUMNS != column
    ensures InColumn(ps, column) != [] && InColumn(ps, column)[|InColumn(ps, column)| - 1] == ps[i]
  {
    if i < |ps| - 1 {
      LastInColumn(ps[..|ps| - 1], column, i);
    }
  }

  /**
   * `calculateDistributionScore`: 30 for the target aspect class, 25 for the
   * target colour, 20 for the target category, 15 for being lighter than the
   * last three placed photos on average, 10 for differing in category from
   * the last photo of the same column. With no earlier photos the average is
   * NaN and the comparison false.
   */
  function DistributionScore(photo: AnalyzedPhoto, bucket: DistributionBucket, previousPhotos: seq<AnalyzedPhoto>): (score: int)
    ensures 0 <= score <= 100 && score % 5 == 0
    ensures previousPhotos == [] ==> score <= 75
    ensures photo.aspectCategory == bucket.targetAspectBalance ==> score >= 30
  {
    var aspect := if photo.aspectCategory == bucket.targetAspectBalance then 30 else 0;
    var color := if photo.colorProfile == bucket.targetColorBalance then 25 else 0;
    var category := if photo.photo.category == bucket.targetCategoryBalance then 20 else 0;
    var balance := BalanceBonus(photo, previousPhotos);
    var variety := VarietyBonus(photo, previousPhotos, bucket.column);
    var fives := (if aspect == 0 then 0 else 6) + (if color == 0 then 0 else 5) + (if category == 0 then 0 else 4)
      + (if balance == 0 then 0 else 3) + (if variety == 0 then 0 else 2);
    assert aspect + color + category + balance + variety == 5 * fives;
    MultipleOfFive(fives);
    aspect + color + category + balance + variety
  }

  /** The variety bonus compares against the photo at the highest earlier index that fell in the column. */
  lemma {:induction false} VarietyAgainstLastInColumn(photo: AnalyzedPhoto, ps: seq<AnalyzedPhoto>, column: nat, i: nat)
    requires i < |ps| && i % COLUMNS == column
    requires forall j :: i < j < |ps| ==> j % COLUMNS != column
    ensures VarietyBonus(photo, ps, column) == if photo.photo.category != ps[i].photo.category then 10 else 0
  {
    LastInColumn(ps, column, i);
  }

  lemma MultipleOfFive(k: int)
    ensures (5 * k) % 5 == 0
  {
  }

  /** 15 when the photo is lighter than the average of the last three placed photos, else 0. */
  function BalanceBonus(photo: AnalyzedPhoto, previousPhotos: seq<AnalyzedPhoto>): (bonus: int)
    ensures bonus == 0 || bonus == 15
    ensures previousPhotos == [] ==> bonus == 0
  {
    var recent := LastThree(previousPhotos);
    if |recent| > 0 && photo.visualWeight < WeightSum(recent) / |recent| as real then 15 else 0
  }

  /** 10 when the photo's category differs from that of the last photo placed in `column`, else 0. */
  function VarietyBonus(photo: AnalyzedPhoto, previousPhotos: seq<AnalyzedPhoto>, column: nat): (bonus: int)
    ensures bonus == 0 || bonus == 10
    ensures previousPhotos == [] ==> bonus == 0
  {
    var columnPhotos := InColumn(previousPhotos, column);
    if |columnPhotos| > 0 && photo.photo.category != columnPhotos[|columnPhotos| - 1].photo.category then 10 else 0
  }

  /** A photo matching all three targets scores at least 75, one matching none at most 25. */
  lemma ScoreRewardsTargets(photo: AnalyzedPhoto, bucket: DistributionBucket, previousPhotos: seq<AnalyzedPhoto>)
    ensures (photo.aspectCategory == bucket.targetAspectBalance && photo.colorProfile == bucket.targetColorBalance
      && photo.photo.category == bucket.targetCategoryBalance) ==> DistributionScore(photo, bucket, previousPhotos) >= 75
    ensures (photo.aspectCategory != bucket.targetAspectBalance && photo.colorProfile != bucket.targetColorBalance
      && photo.photo.category != bucket.targetCategoryBalance) ==> DistributionScore(photo, bucket, previousPhotos) <= 25
  {
  }
}
