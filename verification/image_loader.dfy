/** `CachedAsyncImageViewModel`: loads one image for a view by asking the
    memory tier, then the disk tier, then the network, and on a network hit
    puts the decoded image into both tiers. The tiers, the network session
    and the image decoder are injected; here they are plain values, and every
    call the view model makes on them is recorded in order. */
module ImageLoader {
  import opened Wrappers
  import opened Platform

  // ---------------------------------------------------------------------
  // Key derivation
  // ---------------------------------------------------------------------

  /** The characters matched by the class `[/\:*?"<>|.]` that `createKey`
      builds. Inside the class the backslash escapes the colon, so the
      backslash itself is not matched. */
  predicate IsReplaced(c: char) {
    c == '/' || c == ':' || c == '*' || c == '?' || c == '"' || c == '<' || c == '>' || c == '|' || c == '.'
  }

  function KeyChar(c: char): char {
    if IsReplaced(c) then '#' else c
  }

  /** `createKey(from:)`: every matched character becomes a single `#`,
      every other character is kept, in place. */
  function CreateKey(url: string): (key: Key)
    ensures |key| == |url|
    ensures forall i :: 0 <= i < |url| && IsReplaced(url[i]) ==> key[i] == '#'
    ensures forall i :: 0 <= i < |url| && !IsReplaced(url[i]) ==> key[i] == url[i]
  {
    if |url| == 0 then [] else [KeyChar(url[0])] + CreateKey(url[1..])
  }

  /** A derived key contains none of `/ : * ? " < > | .`. */
  lemma KeyIsFileNameSafe(url: string)
    ensures forall i :: 0 <= i < |CreateKey(url)| ==> !IsReplaced(CreateKey(url)[i])
  {
  }

  /** A backslash is not replaced: it survives into the key. */
  lemma BackslashIsKept(url: string, i: int)
    requires 0 <= i < |url| && url[i] == '\\'
    ensures CreateKey(url)[i] == '\\'
  {
  }

  /** Deriving a key from a key changes nothing, because `#` is not matched. */
  lemma {:induction false} CreateKeyIdempotent(url: string)
    ensures CreateKey(CreateKey(url)) == CreateKey(url)
    decreases |url|
  {
    if |url| > 0 {
      CreateKeyIdempotent(url[1..]);
      assert CreateKey(url)[1..] == CreateKey(url[1..]);
    }
  }

  /** Different URLs can share a key: the derivation is not injective. */
  lemma KeysCollide()
    ensures CreateKey("a.b") == CreateKey("a/b") == "a#b"
  {
  }

  // ---------------------------------------------------------------------
  // Collaborators and state
  // ---------------------------------------------------------------------

  /** What `imageDiskCache.retrieve(forKey:)` did. */
  datatype DiskRead = DiskHit(image: Image) | DiskMiss | DiskThrew

  /** The injected collaborators, as functions of their arguments:
      `urlValid` is whether `URL(string:)` parses a string, `fetch` is
      `networkSession.fetchData(from:)` (`None` when it throws), `decode` is
      `UIImage(data:)`. */
  datatype Services = Services(
    urlValid: string -> bool,
    diskRetrieve: Key -> DiskRead,
    fetch: string -> Option<Bytes>,
    decode: Bytes -> Option<Image>)

  /** One call the view model makes on a collaborator. The result of a disk
      store is discarded, so only the call is recorded. */
  datatype Call =
    | MemoryFetch(key: Key)
    | DiskRetrieve(key: Key)
    | NetworkFetch(url: string)
    | MemoryCache(key: Key, image: Image)
    | DiskStore(key: Key, image: Image)

  /** The published `image` and the contents of the memory tier. */
  datatype State = State(image: Option<Image>, memory: map<Key, Image>)

  /** A helper's returned image, the memory tier after it, and its calls. */
  datatype Run = Run(result: Option<Image>, memory: map<Key, Image>, calls: seq<Call>)

  /** `loadImage(from:)`'s effect: the state after it, and its calls. */
  datatype Load = Load(state: State, calls: seq<Call>)

  // ---------------------------------------------------------------------
  // Operations
  // ---------------------------------------------------------------------

  /** `getImageFromCache(forKey:)`: the memory tier, then the disk tier; a
      disk error counts as a miss. Neither tier is written. */
  function GetImageFromCache(memory: map<Key, Image>, key: Key, svc: Services): (r: Run)
    ensures r.memory == memory
    ensures key in memory ==> r.result == Some(memory[key]) && r.calls == [MemoryFetch(key)]
    ensures key !in memory ==> r.calls == [MemoryFetch(key), DiskRetrieve(key)]
    ensures key !in memory ==> (r.result.Some? <==> svc.diskRetrieve(key).DiskHit?)
    ensures key !in memory && r.result.Some? ==> r.result.value == svc.diskRetrieve(key).image
  {
    if key in memory then Run(Some(memory[key]), memory, [MemoryFetch(key)])
    else
      match svc.diskRetrieve(key)
      case DiskHit(image) => Run(Some(image), memory, [MemoryFetch(key), DiskRetrieve(key)])
      case _ => Run(None, memory, [MemoryFetch(key), DiskRetrieve(key)])
  }

  /** `cacheImage(_:forKey:)`: put the image in the memory tier, then attempt
      a disk store whose failure is swallowed. */
  function CacheImage(memory: map<Key, Image>, key: Key, image: Image): (r: Run)
    ensures key in r.memory && r.memory[key] == image
    ensures forall k :: k != key ==> (k in r.memory <==> k in memory)
    ensures forall k :: k in memory && k != key ==> r.memory[k] == memory[k]
    ensures r.calls == [MemoryCache(key, image), DiskStore(key, image)]
  {
    Run(None, memory[key := image], [MemoryCache(key, image), DiskStore(key, image)])
  }

  /** `fetchImage(forKey:)`: fetch by the original URL string (the key is
      only used for caching), decode, and cache what decoded. */
  function FetchImage(memory: map<Key, Image>, url: string, svc: Services): (r: Run)
    ensures !svc.urlValid(url) ==> r == Run(None, memory, [])
    ensures svc.urlValid(url) ==> |r.calls| >= 1 && r.calls[0] == NetworkFetch(url)
    ensures r.result.Some? <==>
              svc.urlValid(url) && svc.fetch(url).Some? && svc.decode(svc.fetch(url).value).Some?
    ensures r.result.Some? ==>
              && r.result == svc.decode(svc.fetch(url).value)
              && r.memory == memory[CreateKey(url) := r.result.value]
              && r.calls == [NetworkFetch(url), MemoryCache(CreateKey(url), r.result.value),
                             DiskStore(CreateKey(url), r.result.value)]
    ensures r.result.None? ==> r.memory == memory && r.calls == (if svc.urlValid(url) then [NetworkFetch(url)] else [])
  {
    if !svc.urlValid(url) then Run(None, memory, [])
    else
      var key := CreateKey(url);
      match svc.fetch(url)
      case None => Run(None, memory, [NetworkFetch(url)])
      case Some(data) =>
        match svc.decode(data)
        case None => Run(None, memory, [NetworkFetch(url)])
        case Some(image) =>
          var cached := CacheImage(memory, key, image);
          Run(Some(image), cached.memory, [NetworkFetch(url)] + cached.calls)
  }

  /** `loadImage(from:)`: publish a cached image if there is one, else the
      fetched image if the fetch succeeded; otherwise leave `image` alone. */
  function LoadImage(st: State, url: string, svc: Services): (l: Load)
    ensures |l.calls| >= 1 && l.calls[0] == MemoryFetch(CreateKey(url))
    ensures forall i :: 0 <= i < |l.calls| && l.calls[i].NetworkFetch? ==> l.calls[i].url == url
    ensures forall i :: 0 <= i < |l.calls| && !l.calls[i].NetworkFetch? ==> l.calls[i].key == CreateKey(url)
    ensures l.state.image == st.image || l.state.image.Some?
  {
    var key := CreateKey(url);
    var cached := GetImageFromCache(st.memory, key, svc);
    if cached.result.Some? then Load(State(cached.result, st.memory), cached.calls)
    else
      var fetched := FetchImage(st.memory, url, svc);
      Load(State(if fetched.result.Some? then fetched.result else st.image, fetched.memory),
           cached.calls + fetched.calls)
  }

  // ---------------------------------------------------------------------
  // Properties of loadImage
  // ---------------------------------------------------------------------

  /** Both tiers missed for this URL's key. */
  predicate DoubleMiss(st: State, url: string, svc: Services) {
    CreateKey(url) !in st.memory && !svc.diskRetrieve(CreateKey(url)).DiskHit?
  }

  /** The image a successful network path yields, if any. */
  function Fetched(url: string, svc: Services): Option<Image> {
    if svc.urlValid(url) && svc.fetch(url).Some? then svc.decode(svc.fetch(url).value) else None
  }

  /** A memory hit publishes the cached image and touches neither the disk
      tier nor the network. */
  lemma MemoryHitShortCircuits(st: State, url: string, svc: Services)
    requires CreateKey(url) in st.memory
    ensures LoadImage(st, url, svc)
            == Load(State(Some(st.memory[CreateKey(url)]), st.memory), [MemoryFetch(CreateKey(url))])
  {
  }

  /** On a memory miss the disk tier is asked with the same key, and a disk
      hit is published without writing the memory tier or fetching. */
  lemma DiskHitSkipsNetwork(st: State, url: string, svc: Services)
    requires CreateKey(url) !in st.memory
    requires svc.diskRetrieve(CreateKey(url)).DiskHit?
    ensures LoadImage(st, url, svc)
            == Load(State(Some(svc.diskRetrieve(CreateKey(url)).image), st.memory),
                    [MemoryFetch(CreateKey(url)), DiskRetrieve(CreateKey(url))])
  {
  }

  /** The same services, except that a throwing disk read is a plain miss. */
  function ErrorsAsMisses(svc: Services): Services {
    svc.(diskRetrieve := k => if svc.diskRetrieve(k).DiskThrew? then DiskMiss else svc.diskRetrieve(k))
  }

  /** A disk error is indistinguishable from a disk miss. */
  lemma DiskErrorIsMiss(st: State, url: string, svc: Services)
    ensures LoadImage(st, url, svc) == LoadImage(st, url, ErrorsAsMisses(svc))
  {
  }

  /** The network is asked exactly when both tiers miss and the URL parses,
      and then exactly once, with the original URL string. */
  lemma FetchOnlyOnDoubleMiss(st: State, url: string, svc: Services)
    ensures var l := LoadImage(st, url, svc);
            && (exists i :: 0 <= i < |l.calls| && l.calls[i].NetworkFetch?) <==> DoubleMiss(st, url, svc) && svc.urlValid(url)
    ensures var l := LoadImage(st, url, svc);
            forall i, j :: 0 <= i < j < |l.calls| && l.calls[i].NetworkFetch? ==> !l.calls[j].NetworkFetch?
  {
    var l := LoadImage(st, url, svc);
    if DoubleMiss(st, url, svc) && svc.urlValid(url) {
      assert l.calls[2].NetworkFetch?;
    }
  }

  /** After a double miss, a fetch that decodes is published and cached in
      memory under the derived key, and a disk store of it is attempted under
      the same key; a fetch that fails or does not decode changes nothing. */
  lemma DoubleMissOutcome(st: State, url: string, svc: Services)
    requires DoubleMiss(st, url, svc)
    ensures var l := LoadImage(st, url, svc);
            var key := CreateKey(url);
            if Fetched(url, svc).Some? then
              && l.state == State(Fetched(url, svc), st.memory[key := Fetched(url, svc).value])
              && l.calls == [MemoryFetch(key), DiskRetrieve(key), NetworkFetch(url),
                             MemoryCache(key, Fetched(url, svc).value), DiskStore(key, Fetched(url, svc).value)]
            else
              && l.state == st
              && l.calls == [MemoryFetch(key), DiskRetrieve(key)] + (if svc.urlValid(url) then [NetworkFetch(url)] else [])
  {
  }

  /** Loading the same URL again publishes the same image with the same
      tiers, and after a successful fetch it is served from memory alone. */
  lemma ReloadIsStable(st: State, url: string, svc: Services)
    ensures var l1 := LoadImage(st, url, svc);
            var l2 := LoadImage(l1.state, url, svc);
            && l2.state == l1.state
            && (DoubleMiss(st, url, svc) && Fetched(url, svc).Some? ==> l2.calls == [MemoryFetch(CreateKey(url))])
  {
    var key := CreateKey(url);
    if key !in st.memory && !svc.diskRetrieve(key).DiskHit? {
      DoubleMissOutcome(st, url, svc);
    }
  }
}
