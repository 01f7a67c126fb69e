# hefur torrent database, modelled in Dafny

This project models `TorrentDb`, the in-memory torrent database of the hefur
BitTorrent tracker. The database is an index from 20-byte keys to torrent
entries. It answers the tracker's announce and scrape requests and is changed
by `addTorrent` and `removeTorrent`.

- `torrent_entry.dfy` (module `TorrentEntries`, pure) models
  `hefur/torrent-db.hh`. It holds the torrent as the index sees it: a 20-byte
  v1 info-hash, a 32-byte v2 info-hash and the seeders, leechers and completed
  counters. It also holds `TorrentEntry` (a possibly null torrent pointer and
  an `int` version tag), its two constructors, its truthiness, and
  `torrentKey`. Version 1 keys an entry by the v1 info-hash. Version 2 keys it
  by the first 20 bytes of the v2 info-hash (the truncated form of BEP 52).
  Any other tag aborts the process, so it is a precondition of `TorrentKey`.
- `torrent_db.dfy` (module `TorrentDatabase`, imperative) models
  `hefur/torrent-db.cc`. The class `TorrentDb` has the trie as a
  `map<seq<Byte>, Entry>` field, which `AddTorrent` and `RemoveTorrent`
  reassign. `Announce` and `Scrape` only read it. `Scrape` walks the requested
  hashes with a loop whose invariant says that the items built so far are
  those of the processed prefix. The trie's operations (`find`, `insert`,
  `erase`) are the functions `Find`, `Insert` and `Removed`. The object
  invariant `IndexValid` says that every entry is non-null, has version 1 or 2
  and is stored under its own `TorrentKey`. That is how a trie keyed by
  `torrentKey` is built, and it makes every key 20 bytes long.

The trie itself (`m::Trie`) and the `Torrent` class are not part of this
model. The trie is the map above. Its `insert` is given the documented
"first registration wins" behaviour (`hefur/torrent-db.hh:54-57`): a key that
is already present keeps its entry. `Torrent::announce` is a function
parameter of `Announce`. `ANNOUNCE_INTERVAL` and `SCRAPE_INTERVAL` are
configuration values in minutes. They become constants of the `TorrentDb`
object, fixed when it is constructed.

A few points of the code's behaviour are worth stating on their own:

- `scrape` skips unknown hashes; it never emits a zeroed item for them.
- `announce` on an unknown hash answers "torrent not found"; it never creates
  the torrent.
- The index is keyed by the 20-byte `torrentKey` alone; the version tag is not
  part of the key. `TorrentEntry` defaults the version to 1, so `addTorrent`
  always keys by the v1 info-hash.
- No info-hash length is checked. A lookup with a hash that is not 20 bytes
  long simply finds nothing.

## Model

| member | source | states |
|---|---|---|
| TorrentEntries.TorrentKey | hefur/torrent-db.hh:82-91 | defined only for non-null entries tagged 1 or 2; the key is always 20 bytes; tag 1 gives the v1 info-hash unchanged; tag 2 gives a prefix of the v2 info-hash (so exactly its first 20 bytes) |
| TorrentEntries.EntryConstructors | hefur/torrent-db.hh:71-79 | about `MakeEntry` (the defaulted constructor), `NullEntry` (the `nullptr_t` constructor) and `IsSet` (`operator bool`): an entry built from a non-null pointer with no version is truthy, tagged 1 and keyed by the v1 info-hash; the no-argument entry is falsy with tag 1; the `nullptr` entry is falsy with tag 0 |
| TorrentEntries.V2KeysCollide | hefur/torrent-db.hh:86-87 | two version-2 entries get the same key if and only if their v2 info-hashes share the first 20 bytes |
| TorrentEntries.CrossVersionKeysCollide | hefur/torrent-db.hh:84-87 | a version-1 and a version-2 entry get the same key if and only if the v1 info-hash equals the first 20 bytes of the v2 info-hash |
| TorrentDatabase.IndexKeysHaveKeyLength | hefur/torrent-db.hh:93 | every key of a trie keyed by `torrentKey` is 20 bytes long |
| TorrentDatabase.Find | hefur/torrent-db.cc:23-24 | a lookup yields a truthy entry exactly when the key is present with a non-null torrent, and then it yields that torrent |
| TorrentDatabase.Insert | hefur/torrent-db.hh:54-57 | the entry lands under its own key unless the key is taken, in which case the index is unchanged; every other key keeps its entry; the key invariant is preserved |
| TorrentDatabase.Added | hefur/torrent-db.cc:71-78 | a null torrent leaves the index unchanged; otherwise the v1 info-hash is present afterwards, holding the old entry if it was already present and a new version-1 entry for the torrent if not; no other key changes; the key invariant is preserved |
| TorrentDatabase.Removed | hefur/torrent-db.cc:80-84 | afterwards the key is absent and a lookup of it finds nothing; the other keys keep their entries; removing an absent key changes nothing; the key invariant is preserved |
| TorrentDatabase.FirstRegistrationWins | hefur/torrent-db.hh:54-57 | adding a second torrent with the same v1 info-hash leaves the index as the first add left it, and a lookup still finds the first torrent |
| TorrentDatabase.ScrapeItems | hefur/torrent-db.cc:42-54 | at most one item per requested hash; every item reports the torrent found under its own hash (`ScrapeItemsPositions` ties it to a requested position), with that torrent's leechers, seeders and completed counters |
| TorrentDatabase.ScrapeItemsAppend | hefur/torrent-db.cc:42-54 | scraping two request lists one after the other yields the items of the first followed by those of the second |
| TorrentDatabase.ScrapeItemsPositions | hefur/torrent-db.cc:42-54 | the items are exactly the found requested hashes, in request order: there is an increasing list of positions, containing every position whose hash is found, such that item i reports the hash at the i-th position |
| TorrentDatabase.ScrapeAllFound | hefur/torrent-db.cc:45-53 | when every requested hash is found, there is one item per hash, item i reporting hash i |
| TorrentDatabase.ScrapeNoneFound | hefur/torrent-db.cc:45-47 | when no requested hash is found, there are no items at all, so no zeroed items |
| TorrentDatabase.ScrapeAfterRemove | hefur/torrent-db.cc:80-84 | after a removal no scrape item reports the removed key, and a scrape that does not ask for that key reports what it reported before |
| TorrentDatabase.TorrentDb.constructor | hefur/torrent-db.hh:40 | a new database has an empty index and the configured intervals |
| TorrentDatabase.TorrentDb.Announce | hefur/torrent-db.cc:20-35 | unknown hash: an error response with the message "torrent not found"; known hash: the torrent's own response with the interval set to the announce interval times 60; the index is not changed |
| TorrentDatabase.TorrentDb.Scrape | hefur/torrent-db.cc:37-57 | never flags an error; the interval is the scrape interval times 60; the items are `ScrapeItems` of the request; the index is not changed |
| TorrentDatabase.TorrentDb.AddTorrent | hefur/torrent-db.cc:71-78 | the new index is `Added` of the old one and the torrent, and the key invariant still holds |
| TorrentDatabase.TorrentDb.RemoveTorrent | hefur/torrent-db.cc:80-84 | the new index is `Removed` of the old one and the key, and the key invariant still holds |

## Left out

- Locking (`m::SharedMutex`, `Locker`, `ReadLocker`) is left out. Every operation runs alone and to completion, as it would under the lock.
- The cleanup thread is left out: `cleanup_thread_`, `cleanup_stop_`, `cleanupLoop`, and `cleanup`, which only calls `Torrent::cleanup` on each torrent. The constructor models only the empty index; starting and joining the thread is timing and thread plumbing.
- Reference counting (`m::RefCountable`), `NonCopyable` and the friend classes are lifetime and access control with no behaviour to state.
- `m::Trie`'s internals are not part of this model. The trie is a map, and its `find` on an absent key is taken to give a falsy entry.
- The `Torrent` class is not part of this model. A torrent is a value with two info-hashes and three counters, so two distinct torrent objects with equal values cannot be told apart. The peer state that `Torrent::announce` changes inside the torrent is not modelled either; `TorrentDb.Announce` receives that call as a parameter.
- TorrentDatabase.TorrentDb.Announce: the response fields the not-found path does not set are taken to be zero and empty; announce-response.hh is not part of this model.
- TorrentDatabase.TorrentDb.Announce: `Torrent::announce` is assumed to return a non-null response. Its parameter `torrentAnnounce` returns a plain value, so the model cannot express a null result. The header warns that a response may be null after an internal error (hefur/torrent-db.hh:45-46), but the code writes `interval_` through the returned pointer without checking it (hefur/torrent-db.cc:32-33). A null result there would be dereferenced, and the model does not capture that case.
- TorrentDatabase.TorrentDb.Announce: `ANNOUNCE_INTERVAL * 60` is computed on unbounded integers, because the width of the option and of `interval_` are in files this model does not include.
- TorrentDatabase.TorrentDb.Scrape: `SCRAPE_INTERVAL * 60` is computed on unbounded integers, for the same reason.
- The request and response fields the database does not read (`AnnounceEvent`, `AnnounceRequest.peerId`, `left`, `event`, and `AnnounceResponse.nseeders`, `nleechers`, `peers`) are placeholders for announce-request.hh and announce-response.hh, which are not part of this model; only `Torrent::announce` (a parameter here) fills or reads them.
- `TorrentEntry::operator->` is not modelled separately. Dereferencing the torrent of a truthy entry is `entry.torrent.value`.
