/** Properties relating several calls on the container cache and on
    container edits. */
module ContainerProperties {
  import opened Common
  import opened Containers

  /** Asking twice for the same chain, with no removal in between, returns
      the same container both times and reaches the store at most once:
      the second request is answered from the cache, provided the store
      reported the chain's last container among those it created. */
  lemma SecondRequestHitsCache(
    cache: Cache, chain: string, cls: string, refId: int, origin: Option<map<string, string>>,
    mapping: string -> string, reply: ChainReply, reply2: ChainReply)
    requires chain != []
    requires |reply.created| > 0
    requires reply.created[|reply.created| - 1] == CreatedContainer(reply.containerId, mapping(chain))
    ensures var first := AddContainerChain(cache, chain, cls, refId, origin, mapping, reply);
      && first.Ok?
      && var second := AddContainerChain(first.value.cache, chain, cls, refId, origin, mapping, reply2);
      && second.Ok?
      && second.value.containerId == first.value.containerId
      && !second.value.isNew
      && second.value.request.None?
  {
  }

  /** A chain the store already holds is never cached: when the store
      creates nothing, the cache is left as it was, so every later request
      for the same chain misses again and reaches the store again. */
  lemma ExistingChainNeverCached(
    cache: Cache, chain: string, cls: string, refId: int, origin: Option<map<string, string>>,
    mapping: string -> string, reply: ChainReply, reply2: ChainReply)
    requires chain != []
    requires mapping(chain) !in cache
    requires reply.created == []
    ensures var first := AddContainerChain(cache, chain, cls, refId, origin, mapping, reply);
      && first.Ok? && first.value.cache == cache && first.value.request.Some?
      && var second := AddContainerChain(first.value.cache, chain, cls, refId, origin, mapping, reply2);
      && second.Ok? && second.value.isNew && second.value.request.Some?
      && second.value.request == first.value.request
  {
  }

  /** After a successful removal the cache is empty, so the next chain
      request of any kind goes to the store again. */
  lemma RemovalForcesChainRebuild(
    cache: Cache, objectId: int, all: bool, forbidden: int -> bool, objectStored: bool,
    rescanResource: bool, hasCaptionResource: bool, parentRemoved: bool,
    chain: string, cls: string, refId: int, origin: Option<map<string, string>>,
    mapping: string -> string, reply: ChainReply)
    requires chain != []
    requires RemoveObject(cache, objectId, all, forbidden, objectStored, rescanResource, hasCaptionResource, parentRemoved).Ok?
    ensures var removal := RemoveObject(cache, objectId, all, forbidden, objectStored, rescanResource, hasCaptionResource, parentRemoved);
      && var r := AddContainerChain(removal.value.cache, chain, cls, refId, origin, mapping, reply);
      && r.Ok? && r.value.isNew && r.value.request.Some?
  {
  }

  /** A container edit, once written, is not written again: repeating the
      same edit on the written container changes nothing. */
  lemma UpdateContainerIdempotent(c: Container, params: map<string, string>)
    requires UpdateContainer(c, params).Some?
    ensures UpdateContainer(UpdateContainer(c, params).value, params).None?
  {
  }

  /** An edit that sets the title to the empty string writes nothing. */
  lemma EmptyTitleWritesNothing(c: Container)
    ensures UpdateContainer(c, map["title" := ""]).None?
  {
    assert Param(map["title" := ""], "class") == "";
  }
}
