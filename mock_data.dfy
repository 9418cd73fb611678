/**
 * `mockPhotoData.ts`: the older, standalone mock catalogue. Its records
 * carry a picsum.photos URL instead of an aspect ratio and colour profile,
 * its stock tables hold six entries per category, and it is sorted newest
 * first. `Date.now()` and the random day offsets are parameters; the ISO
 * timestamp strings are kept as the millisecond times they encode.
 */
module MockData {
  import opened Wrappers
  import opened Text
  import opened Seqs
  import opened Sorting
  import MockService

  /** `MockPhoto`; `creationTime` is the time its ISO string denotes. */
  datatype MockPhoto = MockPhoto(
    id: string,
    category: string,
    filename: string,
    description: string,
    baseUrl: string,
    width: nat,
    height: nat,
    creationTime: int)

  /** One entry of `stockSources`: pixel size and picsum seed. */
  datatype StockSeed = StockSeed(w: nat, h: nat, seed: string)

  /** `generateMockPhotos`' default `count`. */
  const DEFAULT_COUNT: nat := 6
  /** The `count` `mockPhotoData` is generated with. */
  const DATA_COUNT: nat := 8

  /** `stockSources`, in the order `Object.keys` lists its categories (the order of `MockService.CATEGORIES`). */
  const STOCK_SEEDS: seq<seq<StockSeed>> := [
    [StockSeed(400, 600, "portrait1"), StockSeed(500, 750, "portrait2"), StockSeed(450, 600, "portrait3"),
     StockSeed(600, 800, "portrait4"), StockSeed(400, 500, "portrait5"), StockSeed(350, 450, "portrait6")],
    [StockSeed(800, 400, "landscape1"), StockSeed(1200, 600, "landscape2"), StockSeed(900, 500, "landscape3"),
     StockSeed(1000, 600, "landscape4"), StockSeed(800, 500, "landscape5"), StockSeed(1100, 700, "landscape6")],
    [StockSeed(600, 800, "architecture1"), StockSeed(500, 700, "architecture2"), StockSeed(400, 600, "architecture3"),
     StockSeed(700, 900, "architecture4"), StockSeed(600, 750, "architecture5"), StockSeed(550, 800, "architecture6")],
    [StockSeed(600, 600, "abstract1"), StockSeed(500, 500, "abstract2"), StockSeed(700, 700, "abstract3"),
     StockSeed(800, 600, "abstract4"), StockSeed(400, 600, "abstract5"), StockSeed(650, 650, "abstract6")],
    [StockSeed(700, 500, "wildlife1"), StockSeed(600, 400, "wildlife2"), StockSeed(800, 600, "wildlife3"),
     StockSeed(500, 700, "wildlife4"), StockSeed(900, 600, "wildlife5"), StockSeed(750, 500, "wildlife6")]
  ]

  /** A stock table as generation uses it: one non-empty table per category. */
  predicate ValidSeeds(stock: seq<seq<StockSeed>>) {
    |stock| == |MockService.CATEGORIES| && forall k :: 0 <= k < |stock| ==> |stock[k]| > 0
  }

  lemma StockSeedsValid()
    ensures ValidSeeds(STOCK_SEEDS)
    ensures forall k :: 0 <= k < |STOCK_SEEDS| ==> |STOCK_SEEDS[k]| == 6
  {
  }

  /** `https://picsum.photos/seed/${seed}/${w}/${h}` */
  function PicsumUrl(s: StockSeed): string {
    "https://picsum.photos/seed/" + s.seed + "/" + NatToString(s.w) + "/" + NatToString(s.h)
  }

  /** The `i`-th generated photo of category number `k`: stock entry `i % 6`, created `daysBack` whole days before `now`. */
  function DataPhoto(stock: seq<seq<StockSeed>>, k: nat, i: nat, now: int, daysBack: MockService.DayDraws): (p: MockPhoto)
    requires ValidSeeds(stock) && k < |MockService.CATEGORIES|
    ensures p.id == MockService.MockId(k, i) && p.category == MockService.CATEGORIES[k]
    ensures var s := stock[k][i % |stock[k]|];
      p.width == s.w && p.height == s.h && p.baseUrl == PicsumUrl(s)
    ensures now - 729 * MockService.DAY_MS <= p.creationTime <= now
  {
    var category := MockService.CATEGORIES[k];
    var sourceData := stock[k][i % |stock[k]|];
    var days := daysBack(category, i) % MockService.MAX_DAYS_BACK;
    MockPhoto(MockService.MockId(k, i), category, category + "_" + sourceData.seed + ".jpg", category + " photo",
      PicsumUrl(sourceData), sourceData.w, sourceData.h, now - days * MockService.DAY_MS)
  }

  /** The photos of category number `k`, in generation order. */
  function DataBlock(stock: seq<seq<StockSeed>>, k: nat, n: nat, now: int, daysBack: MockService.DayDraws): (r: seq<MockPhoto>)
    requires ValidSeeds(stock) && k < |MockService.CATEGORIES|
    ensures |r| == n && forall i :: 0 <= i < n ==> r[i] == DataPhoto(stock, k, i, now, daysBack)
  {
    seq(n, i requires 0 <= i < n => DataPhoto(stock, k, i, now, daysBack))
  }

  /** One block per category. */
  function DataBlocks(stock: seq<seq<StockSeed>>, n: nat, now: int, daysBack: MockService.DayDraws): (r: seq<seq<MockPhoto>>)
    requires ValidSeeds(stock)
    ensures |r| == |MockService.CATEGORIES| && forall k :: 0 <= k < |MockService.CATEGORIES| ==> r[k] == DataBlock(stock, k, n, now, daysBack)
  {
    seq(|MockService.CATEGORIES|, k requires 0 <= k < |MockService.CATEGORIES| => DataBlock(stock, k, n, now, daysBack))
  }

  /** The comparator `new Date(b.creationTime) - new Date(a.creationTime)` is negative when `a` is newer. */
  function NewerFirst(a: MockPhoto, b: MockPhoto): bool {
    b.creationTime - a.creationTime < 0
  }

  lemma NewerFirstIsStrictWeakOrder()
    ensures StrictWeakOrder(NewerFirst)
  {
  }

  /** What `generateMockPhotos(n)` returns: every category's block, sorted newest first. */
  function Generated(stock: seq<seq<StockSeed>>, n: nat, now: int, daysBack: MockService.DayDraws): seq<MockPhoto>
    requires ValidSeeds(stock)
  {
    Sort(Concat(DataBlocks(stock, n, now, daysBack)), NewerFirst)
  }

  /** `generateMockPhotos(count)`: the generation loops over the stock tables, then the sort. */
  method GenerateMockPhotos(count: nat, now: int, daysBack: MockService.DayDraws) returns (photos: seq<MockPhoto>)
    ensures ValidSeeds(STOCK_SEEDS)
    ensures photos == Generated(STOCK_SEEDS, count, now, daysBack)
  {
    StockSeedsValid();
    var generated := GenerateDataBlocks(STOCK_SEEDS, count, now, daysBack);
    photos := Sort(generated, NewerFirst);
  }

  /** The `forEach` over the categories and the `for` loop over `i` inside it. */
  method GenerateDataBlocks(stock: seq<seq<StockSeed>>, count: nat, now: int, daysBack: MockService.DayDraws) returns (generated: seq<MockPhoto>)
    requires ValidSeeds(stock)
    ensures generated == Concat(DataBlocks(stock, count, now, daysBack))
  {
    ghost var blocks := DataBlocks(stock, count, now, daysBack);
    generated := [];
    var k := 0;
    assert blocks[..0] == [];
    while k < |MockService.CATEGORIES|
      invariant 0 <= k <= |MockService.CATEGORIES|
      invariant generated == Concat(blocks[..k])
    {
      var i := 0;
      while i < count
        invariant 0 <= i <= count
        invariant generated == Concat(blocks[..k]) + blocks[k][..i]
      {
        generated := generated + [DataPhoto(stock, k, i, now, daysBack)];
        assert blocks[k][..i + 1] == blocks[k][..i] + [blocks[k][i]];
        i := i + 1;
      }
      assert blocks[k][..i] == blocks[k];
      ConcatPrefix(blocks, k);
      k := k + 1;
    }
    assert blocks[..k] == blocks;
  }

  /** `mockPhotoData`: the catalogue generated with eight photos per category. */
  method MockPhotoData(now: int, daysBack: MockService.DayDraws) returns (data: seq<MockPhoto>)
    ensures ValidSeeds(STOCK_SEEDS)
    ensures data == Generated(STOCK_SEEDS, DATA_COUNT, now, daysBack)
    ensures |data| == 40
  {
    data := GenerateMockPhotos(DATA_COUNT, now, daysBack);
    GeneratedSize(STOCK_SEEDS, DATA_COUNT, now, daysBack);
  }

  predicate DistinctIds(photos: seq<MockPhoto>) {
    forall i, j :: 0 <= i < j < |photos| ==> photos[i].id != photos[j].id
  }

  function Ids(photos: seq<MockPhoto>): seq<string> {
    Map((p: MockPhoto) => p.id, photos)
  }

  /** Generation gives every photo its own id. */
  lemma BlocksDistinctIds(stock: seq<seq<StockSeed>>, n: nat, now: int, daysBack: MockService.DayDraws)
    requires ValidSeeds(stock)
    ensures DistinctIds(Concat(DataBlocks(stock, n, now, daysBack)))
  {
    var blocks := DataBlocks(stock, n, now, daysBack);
    var all := Concat(blocks);
    forall a, b | 0 <= a < b < |all|
      ensures all[a].id != all[b].id
    {
      var k1, i1 := ConcatMember(blocks, a);
      var k2, i2 := ConcatMember(blocks, b);
      if all[a].id == all[b].id {
        MockService.MockIdInjective(k1, i1, k2, i2);
      }
    }
  }

  /** `generateMockPhotos(n)` yields `5 * n` photos with distinct ids. */
  lemma GeneratedSize(stock: seq<seq<StockSeed>>, n: nat, now: int, daysBack: MockService.DayDraws)
    requires ValidSeeds(stock)
    ensures |Generated(stock, n, now, daysBack)| == |MockService.CATEGORIES| * n
    ensures DistinctIds(Generated(stock, n, now, daysBack))
  {
    var all := Concat(DataBlocks(stock, n, now, daysBack));
    var sorted := Generated(stock, n, now, daysBack);
    ConcatUniformLength(DataBlocks(stock, n, now, daysBack), n);
    BlocksDistinctIds(stock, n, now, daysBack);
    assert Distinct(Ids(all));
    MapMultiset((p: MockPhoto) => p.id, all, sorted);
    DistinctPermutation(Ids(all), Ids(sorted));
  }

  /**
   * The catalogue holds exactly the generated photos: every photo is the
   * `i`-th of some category for `i < n`, and every such photo is there.
   */
  lemma GeneratedContents(stock: seq<seq<StockSeed>>, n: nat, now: int, daysBack: MockService.DayDraws, p: MockPhoto)
    requires ValidSeeds(stock)
    ensures p in Generated(stock, n, now, daysBack) <==>
      exists k, i :: 0 <= k < |MockService.CATEGORIES| && 0 <= i < n && p == DataPhoto(stock, k, i, now, daysBack)
  {
    var blocks := DataBlocks(stock, n, now, daysBack);
    var all := Concat(blocks);
    var sorted := Generated(stock, n, now, daysBack);
    PermutationMembers(sorted, all, p);
    if p in all {
      var j :| 0 <= j < |all| && all[j] == p;
      var k, i := ConcatMember(blocks, j);
      assert p == DataPhoto(stock, k, i, now, daysBack);
    }
    if exists k, i :: 0 <= k < |MockService.CATEGORIES| && 0 <= i < n && p == DataPhoto(stock, k, i, now, daysBack) {
      var k, i :| 0 <= k < |MockService.CATEGORIES| && 0 <= i < n && p == DataPhoto(stock, k, i, now, daysBack);
      ConcatHas(blocks, k, i);
    }
  }

  /** The catalogue runs newest first, and photos created at the same time keep their generation order. */
  lemma GeneratedNewestFirst(stock: seq<seq<StockSeed>>, n: nat, now: int, daysBack: MockService.DayDraws, y: MockPhoto)
    requires ValidSeeds(stock)
    ensures var r := Generated(stock, n, now, daysBack);
      forall i, j :: 0 <= i < j < |r| ==> r[i].creationTime >= r[j].creationTime
    ensures TiesWith(Generated(stock, n, now, daysBack), y, NewerFirst) == TiesWith(Concat(DataBlocks(stock, n, now, daysBack)), y, NewerFirst)
  {
    NewerFirstIsStrictWeakOrder();
    SortSorted(Concat(DataBlocks(stock, n, now, daysBack)), NewerFirst);
    SortStable(Concat(DataBlocks(stock, n, now, daysBack)), y, NewerFirst);
  }

  function OfCategory(category: string): MockPhoto -> bool {
    (p: MockPhoto) => p.category == category
  }

  /**
   * `mockApiResponses.getAllPhotos`: the `mockPhotoData` catalogue, generated
   * once with eight photos per category: 40 photos with distinct ids, newest
   * first.
   */
  function GetAllPhotos(now: int, daysBack: MockService.DayDraws): (r: seq<MockPhoto>)
    ensures ValidSeeds(STOCK_SEEDS) && r == Generated(STOCK_SEEDS, DATA_COUNT, now, daysBack)
    ensures |r| == 40 && DistinctIds(r)
    ensures forall i, j :: 0 <= i < j < |r| ==> r[i].creationTime >= r[j].creationTime
    ensures forall k :: 0 <= k < |MockService.CATEGORIES| ==> |GetPhotosByCategory(r, MockService.CATEGORIES[k])| == DATA_COUNT
  {
    StockSeedsValid();
    GeneratedSize(STOCK_SEEDS, DATA_COUNT, now, daysBack);
    GeneratedNewestFirst(STOCK_SEEDS, DATA_COUNT, now, daysBack, MockPhoto("", "", "", "", "", 0, 0, 0));
    forall k | 0 <= k < |MockService.CATEGORIES|
      ensures |GetPhotosByCategory(Generated(STOCK_SEEDS, DATA_COUNT, now, daysBack), MockService.CATEGORIES[k])| == DATA_COUNT
    {
      CategoryCount(STOCK_SEEDS, DATA_COUNT, now, daysBack, k);
    }
    Generated(STOCK_SEEDS, DATA_COUNT, now, daysBack)
  }

  /** `mockApiResponses.getPhotosByCategory`: the photos of that category, in catalogue order. */
  function GetPhotosByCategory(data: seq<MockPhoto>, category: string): (r: seq<MockPhoto>)
    ensures forall i :: 0 <= i < |r| ==> r[i].category == category
    ensures forall i :: 0 <= i < |data| && data[i].category == category ==> data[i] in r
    ensures IsSubsequence(r, data)
  {
    var r := Filter(data, OfCategory(category));
    forall i | 0 <= i < |data| && data[i].category == category
      ensures data[i] in r
    {
      FilterMultiset(data, OfCategory(category), data[i]);
    }
    r
  }

  /** Each photo of the category comes back as often as it occurs in the catalogue, and no other photo does. */
  lemma GetPhotosByCategoryExact(data: seq<MockPhoto>, category: string, p: MockPhoto)
    ensures multiset(GetPhotosByCategory(data, category))[p] == if p.category == category then multiset(data)[p] else 0
  {
    FilterMultiset(data, OfCategory(category), p);
  }

  /** `mockApiResponses.getPhotoById`: the first photo with that id, or `undefined`. */
  function GetPhotoById(data: seq<MockPhoto>, id: string): (r: Option<MockPhoto>)
    ensures r.None? <==> id !in Ids(data)
    ensures r.Some? ==> exists k :: 0 <= k < |data| && data[k] == r.value && r.value.id == id && forall j :: 0 <= j < k ==> data[j].id != id
  {
    Find(data, (p: MockPhoto) => p.id == id)
  }

  /** Each category holds exactly `n` photos of a catalogue generated with `n` per category. */
  lemma CategoryCount(stock: seq<seq<StockSeed>>, n: nat, now: int, daysBack: MockService.DayDraws, k: nat)
    requires ValidSeeds(stock) && k < |MockService.CATEGORIES|
    ensures |GetPhotosByCategory(Generated(stock, n, now, daysBack), MockService.CATEGORIES[k])| == n
  {
    var c := MockService.CATEGORIES[k];
    var blocks := DataBlocks(stock, n, now, daysBack);
    var all := Concat(blocks);
    forall j, i | 0 <= j < |blocks| && j != k && 0 <= i < |blocks[j]|
      ensures !OfCategory(c)(blocks[j][i])
    {
      assert MockService.CATEGORIES[j] != c;
    }
    FilterSelectsBlock(blocks, OfCategory(c), k);
    FilterPermutationLength(Generated(stock, n, now, daysBack), all, OfCategory(c));
  }

  /** With distinct ids, looking up the id of any catalogued photo finds that photo. */
  lemma LookupFindsListed(data: seq<MockPhoto>, j: nat)
    requires DistinctIds(data) && j < |data|
    ensures GetPhotoById(data, data[j].id) == Some(data[j])
  {
    var r := GetPhotoById(data, data[j].id);
    assert data[j].id in Ids(data);
    var k :| 0 <= k < |data| && data[k] == r.value && r.value.id == data[j].id && forall i :: 0 <= i < k ==> data[i].id != data[j].id;
  }
}
