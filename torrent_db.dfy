/** The in-memory torrent database of the tracker (hefur/torrent-db.cc): the
    index from 20-byte keys to torrent entries, its two mutations, and the
    answers to announce and scrape requests. Locking is left out: every
    operation is modelled as running alone. */
module TorrentDatabase {
  import opened TorrentEntries

  /** The trie `torrents_`: raw key bytes to the entry stored under them. */
  type Index = map<seq<Byte>, Entry>

  /** The trie computes every key from the entry it stores (`torrentKey`), so
      an entry always sits under its own key, and it never holds an entry
      `torrentKey` cannot key (a null one, or one with an unknown version). */
  predicate IndexValid(index: Index) {
    forall key :: key in index ==>
      IsSet(index[key]) && HasKnownVersion(index[key]) && TorrentKey(index[key]) == key
  }

  /** Every key of a well-formed index is 20 bytes long. */
  lemma IndexKeysHaveKeyLength(index: Index, key: seq<Byte>)
    requires IndexValid(index) && key in index
    ensures |key| == IndexKeyLength
  {
  }

  /** A lookup that finds a truthy entry (`torrents_.find` followed by the
      entry's `operator bool`). */
  predicate Found(index: Index, key: seq<Byte>) {
    key in index && IsSet(index[key])
  }

  /** The torrent a successful lookup finds. */
  function Lookup(index: Index, key: seq<Byte>): (t: Torrent)
    requires Found(index, key)
  {
    index[key].torrent.value
  }

  /** `torrents_.find`: the stored entry, or a falsy one for an absent key. */
  function Find(index: Index, key: seq<Byte>): (e: Entry)
    ensures IsSet(e) <==> Found(index, key)
    ensures IsSet(e) ==> e.torrent.value == Lookup(index, key)
  {
    if key in index then index[key] else NullEntry()
  }

  /** `torrents_.insert`: the entry goes under its own key unless that key is
      taken, in which case the new entry is dropped and the old one stays. */
  function Insert(index: Index, entry: Entry): (r: Index)
    requires IsSet(entry) && HasKnownVersion(entry)
    ensures TorrentKey(entry) in r
    ensures TorrentKey(entry) in index ==> r == index
    ensures TorrentKey(entry) !in index ==> r[TorrentKey(entry)] == entry
    ensures r.Keys == index.Keys + {TorrentKey(entry)}
    ensures forall key :: key in index ==> r[key] == index[key]
    ensures IndexValid(index) ==> IndexValid(r)
  {
    var key := TorrentKey(entry);
    if key in index then index else index[key := entry]
  }

  /** The index after `addTorrent(torrent)`. */
  function Added(index: Index, torrent: Option<Torrent>): (r: Index)
    ensures torrent.None? ==> r == index
    ensures torrent.Some? ==> torrent.value.keyV1 in r
    ensures torrent.Some? && torrent.value.keyV1 in index ==> r == index
    ensures torrent.Some? && torrent.value.keyV1 !in index
        ==> r == index[torrent.value.keyV1 := Entry(torrent, 1)]
    ensures IndexValid(index) ==> IndexValid(r)
  {
    if torrent.None? then index else Insert(index, MakeEntry(torrent))
  }

  /** The index after `removeTorrent(key)` (`torrents_.erase`). */
  function Removed(index: Index, key: seq<Byte>): (r: Index)
    ensures !Found(r, key) && key !in r
    ensures r.Keys == index.Keys - {key}
    ensures forall k :: k in r ==> r[k] == index[k]
    ensures key !in index ==> r == index
    ensures IndexValid(index) ==> IndexValid(r)
  {
    index - {key}
  }

  /** Registering a second torrent under a taken key changes nothing: the
      first registration wins and a lookup still finds the first torrent. */
  lemma FirstRegistrationWins(index: Index, first: Torrent, second: Torrent)
    requires first.keyV1 == second.keyV1 && first.keyV1 !in index
    ensures Added(Added(index, Some(first)), Some(second)) == Added(index, Some(first))
    ensures Found(Added(index, Some(first)), first.keyV1)
    ensures Lookup(Added(Added(index, Some(first)), Some(second)), second.keyV1) == first
  {
  }

  // ---------------------------------------------------------------- announce

  datatype AnnounceEvent = NoEvent | Started | Completed | Stopped

  /** The decoded announce request; the database itself reads only the
      info-hash, the rest is for the torrent. */
  datatype AnnounceRequest = AnnounceRequest(
    infoHash: seq<Byte>,
    peerId: seq<Byte>,
    left: nat,
    event: AnnounceEvent)

  /** The announce response: an error flag and message, the re-announce
      interval in seconds, and what the torrent reports about its swarm. */
  datatype AnnounceResponse = AnnounceResponse(
    error: bool,
    errorMsg: string,
    interval: nat,
    nseeders: nat,
    nleechers: nat,
    peers: seq<seq<Byte>>)

  const TorrentNotFound := "torrent not found"

  /** A fresh response flagged with the not-found error; the fields the code
      does not set keep their defaults, modelled as zero and empty. */
  function NotFoundResponse(): (r: AnnounceResponse) {
    AnnounceResponse(true, TorrentNotFound, 0, 0, 0, [])
  }

  // ------------------------------------------------------------------ scrape

  datatype ScrapeRequest = ScrapeRequest(infoHashes: seq<seq<Byte>>)

  datatype ScrapeItem = ScrapeItem(
    infoHash: seq<Byte>,
    nleechers: nat,
    nseeders: nat,
    ndownloaded: nat)

  datatype ScrapeResponse = ScrapeResponse(
    error: bool,
    interval: nat,
    items: seq<ScrapeItem>)

  /** The item reported for a requested hash whose torrent was found. */
  function ItemOf(infoHash: seq<Byte>, t: Torrent): (item: ScrapeItem) {
    ScrapeItem(infoHash, t.leechers, t.seeders, t.completed)
  }

  /** `item` reports the torrent `index` holds under the item's own hash,
      with that torrent's leechers, seeders and completed counters
      (`ScrapeItemsPositions` ties each item to a requested position). */
  predicate Reports(index: Index, item: ScrapeItem) {
    Found(index, item.infoHash) && item == ItemOf(item.infoHash, Lookup(index, item.infoHash))
  }

  /** The items a scrape of `hashes` reports: one per requested hash that is
      found, in request order; hashes that are not found are skipped. */
  function ScrapeItems(index: Index, hashes: seq<seq<Byte>>): (items: seq<ScrapeItem>)
    ensures |items| <= |hashes|
    ensures forall i :: 0 <= i < |items| ==> Reports(index, items[i])
    decreases |hashes|
  {
    if hashes == [] then []
    else
      var front := hashes[..|hashes| - 1];
      var last := hashes[|hashes| - 1];
      if Found(index, last) then ScrapeItems(index, front) + [ItemOf(last, Lookup(index, last))]
      else ScrapeItems(index, front)
  }

  /** Scraping a concatenation of requests reports the items of each part,
      one after the other. */
  lemma {:induction false} ScrapeItemsAppend(index: Index, a: seq<seq<Byte>>, b: seq<seq<Byte>>)
    ensures ScrapeItems(index, a + b) == ScrapeItems(index, a) + ScrapeItems(index, b)
    decreases |b|
  {
    if b == [] {
      assert a + b == a;
    } else {
      var front := b[..|b| - 1];
      assert (a + b)[..|a + b| - 1] == a + front;
      assert (a + b)[|a + b| - 1] == b[|b| - 1];
      ScrapeItemsAppend(index, a, front);
    }
  }

  /** The scrape items are exactly the found hashes, in request order: `pos`
      lists, increasing, the positions of the requested hashes that are
      found, and item `i` reports the hash at position `pos[i]`. */
  lemma {:induction false} ScrapeItemsPositions(index: Index, hashes: seq<seq<Byte>>)
    returns (pos: seq<nat>)
    ensures |pos| == |ScrapeItems(index, hashes)|
    ensures forall i :: 0 <= i < |pos| ==>
      pos[i] < |hashes| && Found(index, hashes[pos[i]])
      && ScrapeItems(index, hashes)[i] == ItemOf(hashes[pos[i]], Lookup(index, hashes[pos[i]]))
    ensures forall i, j :: 0 <= i < j < |pos| ==> pos[i] < pos[j]
    ensures forall j :: 0 <= j < |hashes| && Found(index, hashes[j]) ==> j in pos
    decreases |hashes|
  {
    if hashes == [] {
      pos := [];
    } else {
      var n := |hashes| - 1;
      var front := hashes[..n];
      var p := ScrapeItemsPositions(index, front);
      var before := ScrapeItems(index, front);
      if Found(index, hashes[n]) {
        pos := p + [n];
        assert ScrapeItems(index, hashes) == before + [ItemOf(hashes[n], Lookup(index, hashes[n]))];
      } else {
        pos := p;
        assert ScrapeItems(index, hashes) == before;
      }
      forall j | 0 <= j < |hashes| && Found(index, hashes[j]) ensures j in pos {
        if j < n {
          assert front[j] == hashes[j];
        }
      }
    }
  }

  /** When every requested hash is found, the scrape reports all of them,
      item `i` for hash `i`. */
  lemma {:induction false} ScrapeAllFound(index: Index, hashes: seq<seq<Byte>>)
    requires forall j :: 0 <= j < |hashes| ==> Found(index, hashes[j])
    ensures |ScrapeItems(index, hashes)| == |hashes|
    ensures forall i :: 0 <= i < |hashes| ==>
      ScrapeItems(index, hashes)[i] == ItemOf(hashes[i], Lookup(index, hashes[i]))
    decreases |hashes|
  {
    if hashes != [] {
      var n := |hashes| - 1;
      var front := hashes[..n];
      assert forall j :: 0 <= j < n ==> front[j] == hashes[j];
      ScrapeAllFound(index, front);
      var before := ScrapeItems(index, front);
      assert ScrapeItems(index, hashes) == before + [ItemOf(hashes[n], Lookup(index, hashes[n]))];
    }
  }

  /** When no requested hash is found, the scrape reports nothing (and in
      particular no zeroed item). */
  lemma {:induction false} ScrapeNoneFound(index: Index, hashes: seq<seq<Byte>>)
    requires forall j :: 0 <= j < |hashes| ==> !Found(index, hashes[j])
    ensures ScrapeItems(index, hashes) == []
    decreases |hashes|
  {
    if hashes != [] {
      ScrapeNoneFound(index, hashes[..|hashes| - 1]);
    }
  }

  /** After `removeTorrent(key)` a scrape reports no item for `key`, and a
      scrape that does not ask for `key` reports what it reported before. */
  lemma {:induction false} ScrapeAfterRemove(index: Index, key: seq<Byte>, hashes: seq<seq<Byte>>)
    ensures forall i :: 0 <= i < |ScrapeItems(Removed(index, key), hashes)| ==>
      ScrapeItems(Removed(index, key), hashes)[i].infoHash != key
    ensures key !in hashes ==> ScrapeItems(Removed(index, key), hashes) == ScrapeItems(index, hashes)
    decreases |hashes|
  {
    if hashes != [] && key !in hashes {
      var front := hashes[..|hashes| - 1];
      assert key !in front by {
        assert forall j :: 0 <= j < |front| ==> front[j] == hashes[j];
      }
      ScrapeAfterRemove(index, key, front);
    }
  }

  // -------------------------------------------------------------- the class

  /** `TorrentDb`: the index and the configured intervals (in minutes). */
  class TorrentDb {
    var torrents: Index
    const announceInterval: nat
    const scrapeInterval: nat

    ghost predicate Valid()
      reads this
    {
      IndexValid(torrents)
    }

    /** An empty database with the configured intervals. */
    constructor (announceInterval: nat, scrapeInterval: nat)
      ensures Valid() && torrents == map[]
      ensures this.announceInterval == announceInterval && this.scrapeInterval == scrapeInterval
    {
      torrents := map[];
      this.announceInterval := announceInterval;
      this.scrapeInterval := scrapeInterval;
    }

    /** `TorrentDb::announce`: an error response when the hash is unknown,
        otherwise the torrent's own answer with the interval stamped in
        seconds. `torrentAnnounce` stands for `Torrent::announce`. The index
        is not changed. */
    method Announce(request: AnnounceRequest,
                    torrentAnnounce: (Torrent, AnnounceRequest) -> AnnounceResponse)
      returns (response: AnnounceResponse)
      ensures !Found(torrents, request.infoHash)
        ==> response.error && response.errorMsg == TorrentNotFound && response == NotFoundResponse()
      ensures Found(torrents, request.infoHash)
        ==> response == torrentAnnounce(Lookup(torrents, request.infoHash), request)
                          .(interval := announceInterval * 60)
    {
      var entry := Find(torrents, request.infoHash);
      if !IsSet(entry) {
        response := NotFoundResponse();
        return;
      }
      response := torrentAnnounce(entry.torrent.value, request);
      response := response.(interval := announceInterval * 60);
    }

    /** `TorrentDb::scrape`: never an error, the scrape interval in seconds,
        and the items `ScrapeItems` describes. The index is not changed. */
    method Scrape(request: ScrapeRequest) returns (response: ScrapeResponse)
      ensures !response.error
      ensures response.interval == scrapeInterval * 60
      ensures response.items == ScrapeItems(torrents, request.infoHashes)
    {
      var hashes := request.infoHashes;
      response := ScrapeResponse(false, 0, []);
      for i := 0 to |hashes|
        invariant response == ScrapeResponse(false, 0, ScrapeItems(torrents, hashes[..i]))
      {
        assert hashes[..i + 1][..i] == hashes[..i];
        var entry := Find(torrents, hashes[i]);
        if !IsSet(entry) {
          continue;
        }
        var item := ItemOf(hashes[i], entry.torrent.value);
        response := response.(items := response.items + [item]);
      }
      assert hashes[..|hashes|] == hashes;
      response := response.(interval := scrapeInterval * 60);
    }

    /** `TorrentDb::addTorrent`: a null torrent is ignored; otherwise the
        torrent is inserted under its v1 info-hash as a version-1 entry,
        unless that key is taken. */
    method AddTorrent(torrent: Option<Torrent>)
      requires Valid()
      modifies this
      ensures Valid()
      ensures torrents == Added(old(torrents), torrent)
    {
      if torrent.None? {
        return;
      }
      torrents := Insert(torrents, MakeEntry(torrent));
    }

    /** `TorrentDb::removeTorrent`: erases the entry stored under `infoHash`,
        if there is one. */
    method RemoveTorrent(infoHash: seq<Byte>)
      requires Valid()
      modifies this
      ensures Valid()
      ensures torrents == Removed(old(torrents), infoHash)
    {
      torrents := torrents - {infoHash};
    }
  }
}
