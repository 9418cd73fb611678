/**
 * The shared photo record and the response/error envelopes every photo
 * service returns (IPhotoService.ts). `new Date().toISOString()` becomes a
 * `timestamp` parameter.
 */
module PhotoService {
  import opened Wrappers
  import opened Text
  import opened Seqs

  datatype ColorProfile = Warm | Cool | Neutral | Vibrant | Muted

  /**
   * A photo record. `category` is kept as a string: callers filter by arbitrary
   * strings and the engine has a branch for categories outside the five known
   * ones. `creationTime` is the parsed ISO timestamp, abstracted to an integer.
   */
  datatype Photo = Photo(
    id: string,
    category: string,
    filename: string,
    description: string,
    width: int,
    height: int,
    aspectRatio: Option<real>,
    colorProfile: Option<ColorProfile>,
    creationTime: Option<int>)

  /** The values the services put into response metadata. */
  datatype MetaValue = Text(text: string) | Number(number: int) | Flag(flag: bool) | Names(names: seq<string>)

  type Metadata = map<string, MetaValue>

  /** What a response carries: a list of photos, or one photo or null. */
  datatype Payload = PhotoList(photos: seq<Photo>) | PhotoOrNull(photo: Option<Photo>)

  datatype ResponseConfig = ResponseConfig(service: string, totalCount: Option<int>, metadata: Option<Metadata>)

  datatype Response = Response(data: Payload, config: ResponseConfig)

  /** `PhotoServiceConfig`: what `getConfig` reports. */
  datatype ServiceConfig = ServiceConfig(name: string, version: string, isAvailable: bool, metadata: Option<Metadata>)

  datatype ServiceError = ServiceError(code: string, message: string, source: string, details: Option<string>)

  /** `createResponse`: wraps `data`, counts it, and stamps the metadata; caller keys win. */
  function CreateResponse(service: string, version: string, data: Payload, metadata: Option<Metadata>, timestamp: string): (r: Response)
    ensures r.data == data && r.config.service == service
    ensures data.PhotoList? ==> r.config.totalCount == Some(|data.photos|)
    ensures data.PhotoOrNull? && data.photo.Some? ==> r.config.totalCount == Some(1)
    ensures data.PhotoOrNull? && data.photo.None? ==> r.config.totalCount == Some(0)
    ensures r.config.metadata.Some?
    ensures var m := r.config.metadata.value;
      && "timestamp" in m && "version" in m
      && (metadata.None? || "timestamp" !in metadata.value ==> m["timestamp"] == Text(timestamp))
      && (metadata.None? || "version" !in metadata.value ==> m["version"] == Text(version))
      && (metadata.Some? ==> forall k :: k in metadata.value ==> k in m && m[k] == metadata.value[k])
      && (forall k :: k in m ==> k == "timestamp" || k == "version" || (metadata.Some? && k in metadata.value))
  {
    var count := match data
      case PhotoList(ps) => |ps|
      case PhotoOrNull(p) => if p.Some? then 1 else 0;
    var stamped := map["timestamp" := Text(timestamp), "version" := Text(version)];
    Response(data, ResponseConfig(service, Some(count), Some(stamped + metadata.GetOr(map[]))))
  }

  function PhotoIds(photos: seq<Photo>): seq<string> {
    Map((p: Photo) => p.id, photos)
  }

  /** `createError`: the caller's code, message and details, attributed to the service. */
  function CreateError(service: string, code: string, message: string, details: Option<string>): (e: ServiceError)
    ensures e.code == code && e.message == message && e.details == details
    ensures e.source == service
  {
    ServiceError(code, message, service, details)
  }

  /**
   * The search predicate used by the mock service and by the factory's
   * client-side fallback: the query occurs, ignoring case, in the description,
   * the category or the filename.
   */
  predicate MatchesQuery(p: Photo, query: string) {
    var q := ToLower(query);
    Contains(ToLower(p.description), q) || Contains(ToLower(p.category), q) || Contains(ToLower(p.filename), q)
  }

  function Matching(query: string): Photo -> bool {
    (p: Photo) => MatchesQuery(p, query)
  }

  /** The photos matching `query`, in their stored order. */
  function SearchFilter(photos: seq<Photo>, query: string): (r: seq<Photo>)
    ensures forall i :: 0 <= i < |r| ==> MatchesQuery(r[i], query)
    ensures forall i :: 0 <= i < |photos| && MatchesQuery(photos[i], query) ==> photos[i] in r
    ensures IsSubsequence(r, photos)
    ensures forall x :: multiset(r)[x] == if MatchesQuery(x, query) then multiset(photos)[x] else 0
  {
    var r := Filter(photos, Matching(query));
    forall x
      ensures multiset(r)[x] == if MatchesQuery(x, query) then multiset(photos)[x] else 0
    {
      FilterMultiset(photos, Matching(query), x);
    }
    forall i | 0 <= i < |photos| && MatchesQuery(photos[i], query)
      ensures photos[i] in r
    {
      assert multiset(r)[photos[i]] == multiset(photos)[photos[i]];
    }
    r
  }

  /** Lower-casing the query does not change what it matches. */
  lemma QueryCaseInsensitive(p: Photo, query: string)
    ensures MatchesQuery(p, ToLower(query)) == MatchesQuery(p, query)
  {
    ToLowerIdempotent(query);
  }

  /** The empty query matches every photo, so searching for it returns the whole list. */
  lemma EmptyQueryMatchesAll(photos: seq<Photo>)
    ensures SearchFilter(photos, "") == photos
  {
    assert forall p: Photo :: MatchesQuery(p, "") by {
      forall p: Photo ensures MatchesQuery(p, "") {
        assert StartsWith(ToLower(p.description), "");
      }
    }
    FilterAll(photos, Matching(""));
  }

  /** Searching is insensitive to the case of the query. */
  lemma SearchIgnoresQueryCase(photos: seq<Photo>, query: string)
    ensures SearchFilter(photos, ToLower(query)) == SearchFilter(photos, query)
  {
    ToLowerIdempotent(query);
    FilterCongruent(photos, Matching(ToLower(query)), Matching(query));
  }
}
