/** The container side of the content manager: the container path cache and
    `addContainerChain`, the equality-gated container edit of
    `updateCdsObject<CdsContainer>`, and the guards of `_removeObject`, which
    is the operation that clears the cache. */
module Containers {
  import opened Common

  /** Identities of the two synthetic containers. */
  const RootId: int := 0
  const FsRootId: int := 1

  /** Metadata field names the chain builder touches. */
  const AlbumArtistKey: string := "upnp:albumArtist"
  const ArtistKey: string := "upnp:artist"
  const DescriptionKey: string := "dc:description"
  const TitleKey: string := "dc:title"
  const TrackNumberKey: string := "upnp:originalTrackNumber"

  /** Fields an item has that do not belong on a container. */
  function UnwantedKeys(): set<string>
  {
    {DescriptionKey, TitleKey, TrackNumberKey, ArtistKey}
  }

  /** The container path cache: virtual path to container ID. */
  type Cache = map<string, int>

  /* ---------------------------------------------------------------- */
  /* addContainerChain                                                 */
  /* ---------------------------------------------------------------- */

  /** The metadata a new container inherits from the object that caused it:
      the album artist falls back to the artist, and description, title,
      track number and artist are dropped. */
  function InheritedMetadata(meta: map<string, string>): (r: map<string, string>)
    ensures AlbumArtistKey in r <==> AlbumArtistKey in meta || ArtistKey in meta
    ensures AlbumArtistKey in r ==> r[AlbumArtistKey] == (if AlbumArtistKey in meta then meta[AlbumArtistKey] else meta[ArtistKey])
    ensures forall k :: k in UnwantedKeys() ==> k !in r
    ensures forall k :: k != AlbumArtistKey && k !in UnwantedKeys() ==> (k in r <==> k in meta)
    ensures forall k :: k in r && k != AlbumArtistKey ==> r[k] == meta[k]
  {
    var filled := if AlbumArtistKey !in meta && ArtistKey in meta then meta[AlbumArtistKey := meta[ArtistKey]] else meta;
    filled - UnwantedKeys()
  }

  /** The part of a path after its last `/`. */
  function LastSegment(path: string): (r: string)
    ensures '/' !in r
    ensures |r| <= |path| && path[|path| - |r|..] == r
    ensures |r| < |path| ==> path[|path| - |r| - 1] == '/'
  {
    if |path| == 0 then ""
    else if path[|path| - 1] == '/' then ""
    else LastSegment(path[..|path| - 1]) + [path[|path| - 1]]
  }

  /** What is asked of the store on a cache miss. */
  datatype ChainRequest = ChainRequest(chain: string, upnpClass: string, refId: int, metadata: map<string, string>)

  datatype CreatedContainer = CreatedContainer(id: int, location: string)

  /** The store's answer to a chain request: the ID of the last container of
      the chain, and every container it had to create, root first. */
  datatype ChainReply = ChainReply(containerId: int, created: seq<CreatedContainer>)

  /** The returned pair `(containerID, isNew)`, the store call made (if
      any), the cache afterwards, and the container announced as changed. */
  datatype ChainOutcome = ChainOutcome(
    containerId: int,
    isNew: bool,
    request: Option<ChainRequest>,
    cache: Cache,
    changed: Option<int>)

  datatype ChainError = EmptyChain

  /** Cache every created container by its location; a later entry for the
      same location wins, and every other cached entry is kept as it was. */
  function CacheCreated(cache: Cache, created: seq<CreatedContainer>): (r: Cache)
    ensures r.Keys == cache.Keys + (set c | c in created :: c.location)
    ensures forall k :: k in cache && (forall i :: 0 <= i < |created| ==> created[i].location != k) ==> r[k] == cache[k]
    ensures |created| > 0 ==> r[created[|created| - 1].location] == created[|created| - 1].id
    ensures forall i :: 0 <= i < |created| && (forall j :: i < j < |created| ==> created[j].location != created[i].location) ==>
              r[created[i].location] == created[i].id
  {
    if |created| == 0 then cache
    else
      var init, last := created[..|created| - 1], created[|created| - 1];
      var rest := CacheCreated(cache, init);
      CacheKeysStep(cache, created, init, rest);
      CacheOldValuesStep(cache, created, init, rest);
      CacheCreatedValuesStep(created, init, rest);
      rest[last.location := last.id]
  }

  /** Caching the last created container on top of the others adds its
      location to the keys. */
  lemma CacheKeysStep(cache: Cache, created: seq<CreatedContainer>, init: seq<CreatedContainer>, rest: Cache)
    requires |created| > 0 && init == created[..|created| - 1]
    requires rest.Keys == cache.Keys + (set c | c in init :: c.location)
    ensures var last := created[|created| - 1];
      rest[last.location := last.id].Keys == cache.Keys + (set c | c in created :: c.location)
  {
    var last := created[|created| - 1];
    assert created == init + [last];
    assert (set c | c in created :: c.location) == (set c | c in init :: c.location) + {last.location};
  }

  /** ... and keeps every entry no created container overwrote. */
  lemma CacheOldValuesStep(cache: Cache, created: seq<CreatedContainer>, init: seq<CreatedContainer>, rest: Cache)
    requires |created| > 0 && init == created[..|created| - 1]
    requires rest.Keys == cache.Keys + (set c | c in init :: c.location)
    requires forall k :: k in cache && (forall i :: 0 <= i < |init| ==> init[i].location != k) ==> rest[k] == cache[k]
    ensures var last := created[|created| - 1];
      forall k :: k in cache && (forall i :: 0 <= i < |created| ==> created[i].location != k) ==>
        rest[last.location := last.id][k] == cache[k]
  {
    var last := created[|created| - 1];
    forall k | k in cache && (forall i :: 0 <= i < |created| ==> created[i].location != k)
      ensures rest[last.location := last.id][k] == cache[k]
    {
      forall i | 0 <= i < |init|
        ensures init[i].location != k
      {
        assert init[i] == created[i];
      }
    }
  }

  /** ... and maps each created location to the last container created there. */
  lemma CacheCreatedValuesStep(created: seq<CreatedContainer>, init: seq<CreatedContainer>, rest: Cache)
    requires |created| > 0 && init == created[..|created| - 1]
    requires forall i :: 0 <= i < |init| ==> init[i].location in rest
    requires forall i :: 0 <= i < |init| && (forall j :: i < j < |init| ==> init[j].location != init[i].location) ==>
               rest[init[i].location] == init[i].id
    ensures var last := created[|created| - 1];
      forall i :: 0 <= i < |created| && (forall j :: i < j < |created| ==> created[j].location != created[i].location) ==>
        rest[last.location := last.id][created[i].location] == created[i].id
  {
    var last := created[|created| - 1];
    forall i | 0 <= i < |init| && (forall j :: i < j < |created| ==> created[j].location != created[i].location)
      ensures rest[last.location := last.id][created[i].location] == created[i].id
    {
      assert init[i] == created[i];
      forall j | i < j < |init|
        ensures init[j].location != init[i].location
      {
        assert init[j] == created[j];
      }
    }
  }

  /** `addContainerChain`: rewrite the chain with the layout mapping (an
      opaque rewrite here), then either answer from the cache with no store
      call or ask the store to create the chain, titling its last container
      after the last path segment, and cache every container it created. */
  function AddContainerChain(
    cache: Cache, chain: string, lastClass: string, lastRefId: int,
    origin: Option<map<string, string>>, mapping: string -> string, reply: ChainReply): (r: Result<ChainOutcome, ChainError>)
    ensures r.Err? <==> chain == []
    ensures r.Ok? && mapping(chain) in cache ==>
      r.value == ChainOutcome(cache[mapping(chain)], false, None, cache, None)
    ensures r.Ok? && mapping(chain) !in cache ==>
      && r.value.isNew
      && r.value.containerId == reply.containerId
      && r.value.request.Some?
      && r.value.request.value.chain == mapping(chain)
      && r.value.request.value.upnpClass == lastClass
      && r.value.request.value.refId == lastRefId
      && r.value.request.value.metadata
           == InheritedMetadata(if origin.Some? then origin.value else map[])[TitleKey := LastSegment(mapping(chain))]
      && r.value.cache == CacheCreated(cache, reply.created)
      && r.value.changed == (if |reply.created| > 0 then Some(reply.created[|reply.created| - 1].id) else None)
  {
    if chain == [] then Err(EmptyChain)
    else
      var newChain := mapping(chain);
      var meta := InheritedMetadata(if origin.Some? then origin.value else map[]);
      if newChain !in cache then
        var request := ChainRequest(newChain, lastClass, lastRefId, meta[TitleKey := LastSegment(newChain)]);
        var changed := if |reply.created| > 0 then Some(reply.created[|reply.created| - 1].id) else None;
        Ok(ChainOutcome(reply.containerId, true, Some(request), CacheCreated(cache, reply.created), changed))
      else
        Ok(ChainOutcome(cache[newChain], false, None, cache, None))
  }

  /* ---------------------------------------------------------------- */
  /* updateCdsObject<CdsContainer>                                     */
  /* ---------------------------------------------------------------- */

  datatype Container = Container(id: int, parentId: int, title: string, upnpClass: string, location: string, mtime: int)

  /** `getValueOrDefault`: an absent parameter reads as the empty string. */
  function Param(params: map<string, string>, key: string): string
  {
    if key in params then params[key] else ""
  }

  /** The edit of a container: a non-empty `title` or `class` parameter
      replaces that field of a copy; the copy is written to the store only
      if it differs from the original. The result is the written copy. */
  function UpdateContainer(c: Container, params: map<string, string>): (r: Option<Container>)
    ensures r.Some? <==>
              || (Param(params, "title") != "" && Param(params, "title") != c.title)
              || (Param(params, "class") != "" && Param(params, "class") != c.upnpClass)
    ensures r.Some? ==> r.value.(title := c.title, upnpClass := c.upnpClass) == c
    ensures r.Some? ==> r.value.title == (if Param(params, "title") != "" then Param(params, "title") else c.title)
    ensures r.Some? ==> r.value.upnpClass == (if Param(params, "class") != "" then Param(params, "class") else c.upnpClass)
  {
    var title := Param(params, "title");
    var upnpClass := Param(params, "class");
    var clone := c.(title := if title != "" then title else c.title,
                    upnpClass := if upnpClass != "" then upnpClass else c.upnpClass);
    if clone != c then Some(clone) else None
  }

  /* ---------------------------------------------------------------- */
  /* _removeObject                                                     */
  /* ---------------------------------------------------------------- */

  datatype RemoveError = CannotRemoveRoot | CannotRemoveFsRoot | IllegalObjectId | ObjectNotFound

  /** The store removal `_removeObject` asks for. */
  datatype StoreRemoval = StoreRemoval(objectId: int, all: bool)

  datatype Removal = Removal(cache: Cache, storeRemoval: Option<StoreRemoval>)

  /** `_removeObject`: the root, the filesystem root and forbidden IDs are
      refused before anything changes. When the caller asks for a resource
      rescan, the object is loaded first, and an object the store no longer
      holds (`objectStored` false) makes the load fail, again before anything
      changes. Otherwise the container cache is cleared, and the object is
      removed from the store unless the attached-resource rescan already
      removed its parent (`parentRemoved`, decided by the store and
      filesystem, only consulted when the caller asked for a resource rescan
      and the object has a caption resource). */
  function RemoveObject(
    cache: Cache, objectId: int, all: bool, forbidden: int -> bool, objectStored: bool,
    rescanResource: bool, hasCaptionResource: bool, parentRemoved: bool): (r: Result<Removal, RemoveError>)
    ensures objectId == RootId ==> r == Err(CannotRemoveRoot)
    ensures objectId == FsRootId ==> r == Err(CannotRemoveFsRoot)
    ensures objectId != RootId && objectId != FsRootId && forbidden(objectId) ==> r == Err(IllegalObjectId)
    ensures objectId != RootId && objectId != FsRootId && !forbidden(objectId) && rescanResource && !objectStored ==>
              r == Err(ObjectNotFound)
    ensures r.Ok? <==> objectId != RootId && objectId != FsRootId && !forbidden(objectId) && (rescanResource ==> objectStored)
    ensures r.Ok? ==> r.value.cache == map[]
    ensures r.Ok? ==> (r.value.storeRemoval.Some? <==> !(rescanResource && hasCaptionResource && parentRemoved))
    ensures r.Ok? && r.value.storeRemoval.Some? ==> r.value.storeRemoval.value == StoreRemoval(objectId, all)
  {
    if objectId == RootId then Err(CannotRemoveRoot)
    else if objectId == FsRootId then Err(CannotRemoveFsRoot)
    else if forbidden(objectId) then Err(IllegalObjectId)
    else if rescanResource && !objectStored then Err(ObjectNotFound)
    else
      var removedParent := rescanResource && hasCaptionResource && parentRemoved;
      Ok(Removal(map[], if removedParent then None else Some(StoreRemoval(objectId, all))))
  }
}
