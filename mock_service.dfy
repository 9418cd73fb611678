/**
 * `MockPhotosService` (MockPhotosService.ts): a fixed in-memory catalogue of
 * generated stock photos, served through the common photo-service responses.
 * The catalogue is built once, when the service is created, and never changes
 * afterwards, so the service is a value holding it. The simulated delays are
 * left out; the clock and the random day offsets are parameters.
 */
module MockService {
  import opened Wrappers
  import opened Text
  import opened Seqs
  import opened Sorting
  import opened PhotoService

  const NAME: string := "MockPhotosService"
  const VERSION: string := "1.0.0"
  /** `generateMockPhotos`'s default `photosPerCategory`. */
  const DEFAULT_PER_CATEGORY: nat := 8
  const CATEGORIES: seq<string> := ["portraits", "landscape", "architecture", "abstract", "wildlife"]
  const DAY_MS: int := 86400000
  /** `Math.floor(Math.random() * 730)` lies in `0 .. 729`. */
  const MAX_DAYS_BACK: nat := 730

  /** One entry of the stock tables: pixel size and the stock photo's id. */
  datatype StockSource = StockSource(w: int, h: int, id: string)

  /** `stockSources`, one table of eight entries per category, in the order of `CATEGORIES`. */
  const STOCK_SOURCES: seq<seq<StockSource>> := [
    [StockSource(300, 450, "rDEOVtE7vOs"), StockSource(400, 300, "sibVwORYqs0"), StockSource(350, 350, "mEZ3PoFGs_k"),
     StockSource(280, 420, "IF9TK5Uy-KI"), StockSource(450, 300, "WNoLnJo7tS8"), StockSource(320, 480, "YI_9SivVt_s"),
     StockSource(400, 250, "2EGNqazbAMk"), StockSource(300, 500, "pAtA8xe_iVM")],
    [StockSource(500, 300, "6ArTTluciuA"), StockSource(300, 450, "Q1p7bh3SHj8"), StockSource(400, 400, "OKLqGsCT8qs"),
     StockSource(350, 525, "lHGeqh3XhRY"), StockSource(450, 300, "4dpAqfTbvKA"), StockSource(320, 480, "tAKXap853rY"),
     StockSource(500, 250, "yC-Yzbqy7PY"), StockSource(300, 400, "LNRyGwIJr5c")],
    [StockSource(280, 420, "Dl6jeyfihLk"), StockSource(450, 300, "y83Je1OC6Wc"), StockSource(350, 350, "LF8gK8-HGSg"),
     StockSource(320, 480, "tAKXap853rY"), StockSource(400, 250, "BbQLHCpVUqA"), StockSource(300, 450, "xII7efH1G6o"),
     StockSource(400, 400, "ABDTiLqDhJA"), StockSource(450, 300, "1bgV8vGG_vw")],
    [StockSource(350, 350, "_h7aBovKia4"), StockSource(500, 250, "LeG68PrXA6Y"), StockSource(280, 420, "tMI2_-r5Nfo"),
     StockSource(400, 400, "qwtCeJ5cLYs"), StockSource(300, 450, "uhjiu8FjnsQ"), StockSource(450, 300, "XJXWbfSo2f0"),
     StockSource(320, 320, "jr4My9LVtzw"), StockSource(300, 400, "nP-E_TuSDVo")],
    [StockSource(450, 300, "YozNeHM8MaA"), StockSource(300, 450, "5nNmUzXcmjI"), StockSource(400, 300, "rTZW4f02zY8"),
     StockSource(320, 480, "ZO9b9QXrjqY"), StockSource(450, 300, "lEjqyllqaGk"), StockSource(350, 350, "fX_8gVQWlHo"),
     StockSource(300, 400, "FE7kNUlEGfw"), StockSource(400, 250, "cPccYbPrF-A")]
  ]

  /** A stock table as generation uses it: one non-empty table of positive sizes per category. */
  predicate ValidStock(stock: seq<seq<StockSource>>) {
    && |stock| == |CATEGORIES|
    && forall k :: 0 <= k < |stock| ==> |stock[k]| > 0 && forall j :: 0 <= j < |stock[k]| ==> stock[k][j].w > 0 && stock[k][j].h > 0
  }

  lemma StockSourcesValid()
    ensures ValidStock(STOCK_SOURCES)
  {
  }

  /**
   * The random draws of generation: `daysBack(category, i)` stands for the
   * offset drawn for the `i`-th photo of `category`, reduced into range.
   */
  type DayDraws = (string, nat) -> nat

  function MockId(k: nat, i: nat): string
    requires k < |CATEGORIES|
  {
    "mock-" + CATEGORIES[k] + "-" + NatToString(i + 1)
  }

  /** The `i`-th generated photo of category number `k`. */
  function MockPhoto(stock: seq<seq<StockSource>>, k: nat, i: nat, now: int, daysBack: DayDraws): (p: Photo)
    requires ValidStock(stock) && k < |CATEGORIES|
    ensures p.id == MockId(k, i) && p.category == CATEGORIES[k]
    ensures p.width > 0 && p.height > 0 && p.aspectRatio == Some(p.width as real / p.height as real)
    ensures p.colorProfile == Some(Neutral)
    ensures p.creationTime.Some? && now - 729 * DAY_MS <= p.creationTime.value <= now
  {
    var category := CATEGORIES[k];
    var sourceData := stock[k][i % |stock[k]|];
    var days := daysBack(category, i) % MAX_DAYS_BACK;
    Photo(MockId(k, i), category, category + "_" + sourceData.id + ".jpg", category + " photo",
      sourceData.w, sourceData.h, Some(sourceData.w as real / sourceData.h as real), Some(Neutral),
      Some(now - days * DAY_MS))
  }

  /** The photos of category number `k`, in generation order. */
  function CategoryBlock(stock: seq<seq<StockSource>>, k: nat, n: nat, now: int, daysBack: DayDraws): (r: seq<Photo>)
    requires ValidStock(stock) && k < |CATEGORIES|
    ensures |r| == n && forall i :: 0 <= i < n ==> r[i] == MockPhoto(stock, k, i, now, daysBack)
  {
    seq(n, i requires 0 <= i < n => MockPhoto(stock, k, i, now, daysBack))
  }

  /** One block per category, in the order of `CATEGORIES`. */
  function Blocks(stock: seq<seq<StockSource>>, n: nat, now: int, daysBack: DayDraws): (r: seq<seq<Photo>>)
    requires ValidStock(stock)
    ensures |r| == |CATEGORIES| && forall k :: 0 <= k < |CATEGORIES| ==> r[k] == CategoryBlock(stock, k, n, now, daysBack)
  {
    seq(|CATEGORIES|, k requires 0 <= k < |CATEGORIES| => CategoryBlock(stock, k, n, now, daysBack))
  }

  /** The masonry classes of the final sort; note the thresholds and the ratio (height over width) differ from the engine's. */
  datatype MasonryClass = Wide | Square | Portrait | Tall

  /**
   * `getAspectCategory` inside the sort comparator, on `height / width`.
   * A zero width gives an infinite or NaN ratio in the source: infinity and
   * NaN fail every `<` test and land in `Tall`, minus infinity in `Wide`.
   */
  function MasonryClassOf(p: Photo): MasonryClass {
    if p.width == 0 then (if p.height < 0 then Wide else Tall)
    else
      var aspect := p.height as real / p.width as real;
      if aspect < 0.7 then Wide
      else if aspect < 1.2 then Square
      else if aspect < 2.5 then Portrait
      else Tall
  }

  /** `['wide', 'tall', 'square', 'portrait'].indexOf(...)` */
  function ClassOrder(c: MasonryClass): nat {
    match c
    case Wide => 0
    case Tall => 1
    case Square => 2
    case Portrait => 3
  }

  /** `new Date(p.creationTime || 0).getTime()` */
  function TimeOf(p: Photo): int {
    p.creationTime.GetOr(0)
  }

  /** The comparator is negative when `a` goes first: an earlier class, or the same class and newer. */
  function MasonryBefore(a: Photo, b: Photo): bool {
    var ca, cb := MasonryClassOf(a), MasonryClassOf(b);
    if ca == cb then TimeOf(b) - TimeOf(a) < 0 else ClassOrder(ca) < ClassOrder(cb)
  }

  lemma MasonryBeforeIsStrictWeakOrder()
    ensures StrictWeakOrder(MasonryBefore)
  {
  }

  /** What `generateMockPhotos(n)` returns: every category's block, then the masonry sort. */
  function GeneratedPhotos(stock: seq<seq<StockSource>>, n: nat, now: int, daysBack: DayDraws): seq<Photo>
    requires ValidStock(stock)
  {
    Sort(Concat(Blocks(stock, n, now, daysBack)), MasonryBefore)
  }

  /** `generateMockPhotos`: the generation loops, then the masonry sort. */
  method GenerateMockPhotos(photosPerCategory: nat, now: int, daysBack: DayDraws) returns (photos: seq<Photo>)
    ensures ValidStock(STOCK_SOURCES)
    ensures photos == GeneratedPhotos(STOCK_SOURCES, photosPerCategory, now, daysBack)
  {
    StockSourcesValid();
    var generated := GenerateBlocks(STOCK_SOURCES, photosPerCategory, now, daysBack);
    photos := Sort(generated, MasonryBefore);
  }

  /** The generation loops of `generateMockPhotos`: one over the categories, one over the photos of each. */
  method GenerateBlocks(stock: seq<seq<StockSource>>, photosPerCategory: nat, now: int, daysBack: DayDraws) returns (generated: seq<Photo>)
    requires ValidStock(stock)
    ensures generated == Concat(Blocks(stock, photosPerCategory, now, daysBack))
  {
    ghost var blocks := Blocks(stock, photosPerCategory, now, daysBack);
    generated := [];
    var k := 0;
    assert blocks[..0] == [];
    while k < |CATEGORIES|
      invariant 0 <= k <= |CATEGORIES|
      invariant generated == Concat(blocks[..k])
    {
      var i := 0;
      while i < photosPerCategory
        invariant 0 <= i <= photosPerCategory
        invariant generated == Concat(blocks[..k]) + blocks[k][..i]
      {
        generated := generated + [MockPhoto(stock, k, i, now, daysBack)];
        assert blocks[k][..i + 1] == blocks[k][..i] + [blocks[k][i]];
        i := i + 1;
      }
      assert blocks[k][..i] == blocks[k];
      ConcatPrefix(blocks, k);
      k := k + 1;
    }
    assert blocks[..k] == blocks;
  }

  /** Distinct (category, index) pairs give distinct ids: the category is read off characters 5 and 6, the index off the suffix. */
  lemma {:induction false} MockIdInjective(k1: nat, i1: nat, k2: nat, i2: nat)
    requires k1 < |CATEGORIES| && k2 < |CATEGORIES| && MockId(k1, i1) == MockId(k2, i2)
    ensures k1 == k2 && i1 == i2
  {
    var a, b := MockId(k1, i1), MockId(k2, i2);
    assert a[5] == CATEGORIES[k1][0] && a[6] == CATEGORIES[k1][1];
    assert b[5] == CATEGORIES[k2][0] && b[6] == CATEGORIES[k2][1];
    var prefix := "mock-" + CATEGORIES[k1] + "-";
    assert a[|prefix|..] == NatToString(i1 + 1);
    assert b[|prefix|..] == NatToString(i2 + 1);
    NatToStringInjective(i1 + 1, i2 + 1);
  }

  predicate DistinctIds(photos: seq<Photo>) {
    forall i, j :: 0 <= i < j < |photos| ==> photos[i].id != photos[j].id
  }

  lemma DistinctIdsMeansDistinct(photos: seq<Photo>)
    ensures DistinctIds(photos) <==> Distinct(PhotoIds(photos))
  {
  }

  /** Generation gives every photo its own id. */
  lemma BlocksDistinctIds(stock: seq<seq<StockSource>>, n: nat, now: int, daysBack: DayDraws)
    requires ValidStock(stock)
    ensures DistinctIds(Concat(Blocks(stock, n, now, daysBack)))
  {
    var blocks := Blocks(stock, n, now, daysBack);
    var all := Concat(blocks);
    forall a, b | 0 <= a < b < |all|
      ensures all[a].id != all[b].id
    {
      var k1, i1 := ConcatMember(blocks, a);
      var k2, i2 := ConcatMember(blocks, b);
      if all[a].id == all[b].id {
        MockIdInjective(k1, i1, k2, i2);
      }
    }
  }

  /** A generated photo: one of the five categories, neutral profile, positive size, stored ratio width over height, created within the last 730 days. */
  predicate GeneratedShape(p: Photo, now: int) {
    && p.category in CATEGORIES && p.colorProfile == Some(Neutral)
    && p.width > 0 && p.height > 0 && p.aspectRatio == Some(p.width as real / p.height as real)
    && p.creationTime.Some? && now - 729 * DAY_MS <= p.creationTime.value <= now
  }

  /** The generated catalogue holds `5 * n` photos with distinct ids. */
  lemma GeneratedDistinct(stock: seq<seq<StockSource>>, n: nat, now: int, daysBack: DayDraws)
    requires ValidStock(stock)
    ensures |GeneratedPhotos(stock, n, now, daysBack)| == |CATEGORIES| * n
    ensures DistinctIds(GeneratedPhotos(stock, n, now, daysBack))
  {
    var all := Concat(Blocks(stock, n, now, daysBack));
    var sorted := GeneratedPhotos(stock, n, now, daysBack);
    ConcatUniformLength(Blocks(stock, n, now, daysBack), n);
    BlocksDistinctIds(stock, n, now, daysBack);
    DistinctIdsMeansDistinct(all);
    MapMultiset((p: Photo) => p.id, all, sorted);
    DistinctPermutation(PhotoIds(all), PhotoIds(sorted));
    DistinctIdsMeansDistinct(sorted);
  }

  /** Every generated photo has the generated shape. */
  lemma GeneratedShapes(stock: seq<seq<StockSource>>, n: nat, now: int, daysBack: DayDraws)
    requires ValidStock(stock)
    ensures forall j :: 0 <= j < |GeneratedPhotos(stock, n, now, daysBack)| ==> GeneratedShape(GeneratedPhotos(stock, n, now, daysBack)[j], now)
  {
    var blocks := Blocks(stock, n, now, daysBack);
    var all := Concat(blocks);
    forall j | 0 <= j < |all|
      ensures GeneratedShape(all[j], now)
    {
      var k, i := ConcatMember(blocks, j);
    }
    PermutationPreserves(all, GeneratedPhotos(stock, n, now, daysBack), (p: Photo) => GeneratedShape(p, now));
  }

  /** Each category's `i`-th photo, for `i < n`, is in the generated catalogue. */
  lemma GeneratedComplete(stock: seq<seq<StockSource>>, n: nat, now: int, daysBack: DayDraws, k: nat, i: nat)
    requires ValidStock(stock) && k < |CATEGORIES| && i < n
    ensures MockPhoto(stock, k, i, now, daysBack) in GeneratedPhotos(stock, n, now, daysBack)
  {
    var blocks := Blocks(stock, n, now, daysBack);
    ConcatHas(blocks, k, i);
    assert MockPhoto(stock, k, i, now, daysBack) in multiset(Concat(blocks));
  }

  /** The catalogue is in masonry order: classes wide, tall, square, portrait, newest first within a class, generation order among equal times. */
  lemma GeneratedOrder(stock: seq<seq<StockSource>>, n: nat, now: int, daysBack: DayDraws, y: Photo)
    requires ValidStock(stock)
    ensures var r := GeneratedPhotos(stock, n, now, daysBack);
      forall i, j :: 0 <= i < j < |r| ==>
        && ClassOrder(MasonryClassOf(r[i])) <= ClassOrder(MasonryClassOf(r[j]))
        && (MasonryClassOf(r[i]) == MasonryClassOf(r[j]) ==> TimeOf(r[i]) >= TimeOf(r[j]))
    ensures TiesWith(GeneratedPhotos(stock, n, now, daysBack), y, MasonryBefore) == TiesWith(Concat(Blocks(stock, n, now, daysBack)), y, MasonryBefore)
  {
    MasonryBeforeIsStrictWeakOrder();
    SortSorted(Concat(Blocks(stock, n, now, daysBack)), MasonryBefore);
    SortStable(Concat(Blocks(stock, n, now, daysBack)), y, MasonryBefore);
  }

  /** Each category holds exactly `n` photos of the catalogue. */
  lemma CategoryCount(stock: seq<seq<StockSource>>, n: nat, now: int, daysBack: DayDraws, k: nat)
    requires ValidStock(stock) && k < |CATEGORIES|
    ensures |Filter(GeneratedPhotos(stock, n, now, daysBack), InCategory(CATEGORIES[k]))| == n
  {
    var c := CATEGORIES[k];
    var blocks := Blocks(stock, n, now, daysBack);
    var all := Concat(blocks);
    forall j, i | 0 <= j < |blocks| && j != k && 0 <= i < |blocks[j]|
      ensures !InCategory(c)(blocks[j][i])
    {
      assert CATEGORIES[j] != c;
    }
    FilterSelectsBlock(blocks, InCategory(c), k);
    var sorted := GeneratedPhotos(stock, n, now, daysBack);
    forall x
      ensures multiset(Filter(sorted, InCategory(c)))[x] == multiset(Filter(all, InCategory(c)))[x]
    {
      FilterMultiset(sorted, InCategory(c), x);
      FilterMultiset(all, InCategory(c), x);
    }
    assert multiset(Filter(sorted, InCategory(c))) == multiset(Filter(all, InCategory(c)));
    assert |multiset(Filter(sorted, InCategory(c)))| == |Filter(sorted, InCategory(c))|;
  }

  function InCategory(category: string): Photo -> bool {
    (p: Photo) => p.category == category
  }

  /** The service: the catalogue generated when it was constructed. */
  datatype MockPhotosService = MockPhotosService(photos: seq<Photo>) {

    /** `photos.map(p => p.category)` */
    function Categories(): (r: seq<string>)
      ensures |r| == |photos| && forall i :: 0 <= i < |photos| ==> r[i] == photos[i].category
    {
      Map((p: Photo) => p.category, photos)
    }

    /**
     * `[...new Set(photos.map(p => p.category))]`: each category once, listed
     * in the order of the first photo that has it.
     */
    function UniqueCategories(): (r: seq<string>)
      ensures Distinct(r)
      ensures forall c :: c in r <==> exists i :: 0 <= i < |photos| && photos[i].category == c
      ensures forall c :: c in r <==> c in Categories()
      ensures forall i, j :: 0 <= i < j < |r| ==> FirstIndex(Categories(), r[i]) < FirstIndex(Categories(), r[j])
    {
      var categories := Categories();
      assert forall c :: c in categories <==> exists i :: 0 <= i < |photos| && photos[i].category == c;
      Dedup(categories)
    }

    /** The photos of one category (exact, case-sensitive match), in catalogue order. */
    function ByCategory(category: string): (r: seq<Photo>)
      ensures forall i :: 0 <= i < |r| ==> r[i].category == category
      ensures forall i :: 0 <= i < |photos| && photos[i].category == category ==> photos[i] in r
      ensures IsSubsequence(r, photos)
      ensures forall x :: multiset(r)[x] == if x.category == category then multiset(photos)[x] else 0
    {
      var r := Filter(photos, InCategory(category));
      forall x
        ensures multiset(r)[x] == if x.category == category then multiset(photos)[x] else 0
      {
        FilterMultiset(photos, InCategory(category), x);
      }
      forall i | 0 <= i < |photos| && photos[i].category == category
        ensures photos[i] in r
      {
        assert multiset(r)[photos[i]] == multiset(photos)[photos[i]];
      }
      r
    }

    /** `getAllPhotos` */
    function GetAllPhotos(generatedAt: string, timestamp: string): (r: Response)
      ensures r.data == PhotoList(photos) && r.config.totalCount == Some(|photos|)
      ensures r.config.service == NAME
      ensures r.config.metadata.Some? && "categories" in r.config.metadata.value && r.config.metadata.value["categories"] == Names(UniqueCategories())
    {
      CreateResponse(NAME, VERSION, PhotoList(photos), Some(map[
        "totalCount" := Number(|photos|),
        "categories" := Names(UniqueCategories()),
        "generatedAt" := Text(generatedAt)]), timestamp)
    }

    /** `getPhotosByCategory` */
    function GetPhotosByCategory(category: string, timestamp: string): (r: Response)
      ensures r.data.PhotoList? && r.data.photos == ByCategory(category)
      ensures r.config.totalCount == Some(|ByCategory(category)|)
      ensures r.config.metadata.Some? && "count" in r.config.metadata.value && r.config.metadata.value["count"] == Number(|ByCategory(category)|)
        && "totalPhotos" in r.config.metadata.value && r.config.metadata.value["totalPhotos"] == Number(|photos|)
    {
      var filteredPhotos := ByCategory(category);
      CreateResponse(NAME, VERSION, PhotoList(filteredPhotos), Some(map[
        "category" := Text(category),
        "count" := Number(|filteredPhotos|),
        "totalPhotos" := Number(|photos|)]), timestamp)
    }

    /** `getPhotoById`: the first photo with that id, or null. */
    function GetPhotoById(id: string, timestamp: string): (r: Response)
      ensures r.data.PhotoOrNull?
      ensures r.data.photo.Some? ==> r.data.photo.value.id == id && r.data.photo.value in photos
      ensures r.data.photo.Some? ==> exists k :: 0 <= k < |photos| && photos[k] == r.data.photo.value && forall j :: 0 <= j < k ==> photos[j].id != id
      ensures r.data.photo.None? <==> id !in PhotoIds(photos)
      ensures r.config.metadata.Some? && "found" in r.config.metadata.value && r.config.metadata.value["found"] == Flag(r.data.photo.Some?)
    {
      var photo := Find(photos, (p: Photo) => p.id == id);
      CreateResponse(NAME, VERSION, PhotoOrNull(photo), Some(map[
        "found" := Flag(photo.Some?),
        "searchedId" := Text(id)]), timestamp)
    }

    /** `searchPhotos`: case-insensitive search of description, category and filename. */
    function SearchPhotos(query: string, timestamp: string): (r: Response)
      ensures r.data.PhotoList? && r.data.photos == SearchFilter(photos, query)
      ensures r.config.metadata.Some? && "resultsCount" in r.config.metadata.value && r.config.metadata.value["resultsCount"] == Number(|r.data.photos|)
    {
      var searchResults := SearchFilter(photos, query);
      CreateResponse(NAME, VERSION, PhotoList(searchResults), Some(map[
        "query" := Text(query),
        "resultsCount" := Number(|searchResults|),
        "totalPhotos" := Number(|photos|)]), timestamp)
    }

    /** `isAvailable`: the mock is always available. */
    function IsAvailable(): (r: bool)
      ensures r
    {
      true
    }

    /** `getConfig` */
    function GetConfig(): (r: ServiceConfig)
      ensures r.name == NAME && r.version == VERSION && r.isAvailable
      ensures r.metadata.Some? && "totalPhotos" in r.metadata.value && r.metadata.value["totalPhotos"] == Number(|photos|)
    {
      ServiceConfig(NAME, VERSION, true, Some(map[
        "totalPhotos" := Number(|photos|),
        "categories" := Names(UniqueCategories()),
        "features" := Names(["getAllPhotos", "getPhotosByCategory", "getPhotoById", "searchPhotos"]),
        "performance" := Text("Simulated delays: 100-300ms")]))
    }
  }

  /** The constructor: the service holds `generateMockPhotos()` with its default of eight photos per category. */
  method NewMockPhotosService(now: int, daysBack: DayDraws) returns (service: MockPhotosService)
    ensures ValidStock(STOCK_SOURCES)
    ensures service.photos == GeneratedPhotos(STOCK_SOURCES, DEFAULT_PER_CATEGORY, now, daysBack)
    ensures |service.photos| == 40 && DistinctIds(service.photos)
  {
    var photos := GenerateMockPhotos(DEFAULT_PER_CATEGORY, now, daysBack);
    GeneratedDistinct(STOCK_SOURCES, DEFAULT_PER_CATEGORY, now, daysBack);
    service := MockPhotosService(photos);
  }

  /** Looking up the id of any catalogued photo finds that photo, provided ids are distinct (as they are in the generated catalogue). */
  lemma LookupFindsListed(service: MockPhotosService, j: nat, timestamp: string)
    requires DistinctIds(service.photos) && j < |service.photos|
    ensures service.GetPhotoById(service.photos[j].id, timestamp).data.photo == Some(service.photos[j])
  {
    var p := service.photos[j];
    var r := service.GetPhotoById(p.id, timestamp).data.photo;
    assert r.Some?;
    var k :| 0 <= k < |service.photos| && service.photos[k] == r.value;
  }

  /** Every catalogued photo is listed under its category, and the categories listed are exactly those with photos. */
  lemma CategoriesCoverCatalogue(service: MockPhotosService, category: string)
    ensures service.ByCategory(category) != [] <==> category in service.UniqueCategories()
  {
    var photos := service.photos;
    if category in service.UniqueCategories() {
      var i :| 0 <= i < |photos| && photos[i].category == category;
      assert photos[i] in service.ByCategory(category);
    }
  }

  /** Searching is insensitive to the case of the query. */
  lemma SearchIgnoresQueryCase(service: MockPhotosService, query: string, timestamp: string)
    ensures service.SearchPhotos(ToLower(query), timestamp).data == service.SearchPhotos(query, timestamp).data
  {
    PhotoService.SearchIgnoresQueryCase(service.photos, query);
  }
}
