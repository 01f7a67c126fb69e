/** Torrents as the index sees them, the entries the index stores, and the
    derivation of an entry's 20-byte index key from its version tag
    (hefur/torrent-db.hh). */
module TorrentEntries {

  newtype Byte = b: int | 0 <= b < 256

  /** A BitTorrent v1 info-hash: a 20-byte SHA-1 digest. */
  type InfoHashV1 = s: seq<Byte> | |s| == 20 witness seq(20, i => 0)

  /** A BitTorrent v2 info-hash: a 32-byte SHA-256 digest. */
  type InfoHashV2 = s: seq<Byte> | |s| == 32 witness seq(32, i => 0)

  /** The length of every key of the index. */
  const IndexKeyLength := 20

  datatype Option<+T> = None | Some(value: T)

  /** The part of a torrent the database reads: its two info-hashes and its
      swarm counters. A null `Torrent::Ptr` is `None` of `Option<Torrent>`. */
  datatype Torrent = Torrent(
    keyV1: InfoHashV1,
    keyV2: InfoHashV2,
    seeders: nat,
    leechers: nat,
    completed: nat)

  /** `TorrentEntry`: a possibly null torrent pointer and a version tag. */
  datatype Entry = Entry(torrent: Option<Torrent>, version: int)

  /** The constructor `TorrentEntry(Torrent::Ptr t = nullptr, int v = 1)`;
      called with no argument at all it is this one that is chosen. */
  function MakeEntry(t: Option<Torrent> := None, v: int := 1): (e: Entry)
  {
    Entry(t, v)
  }

  /** The constructor `TorrentEntry(std::nullptr_t)`: the torrent pointer is
      default-initialised (null) and `version` keeps its initialiser, 0. */
  function NullEntry(): (e: Entry)
  {
    Entry(None, 0)
  }

  /** `operator bool`: an entry is truthy when its torrent pointer is non-null. */
  predicate IsSet(e: Entry) {
    e.torrent.Some?
  }

  /** The versions `torrentKey` knows how to key; any other tag terminates the
      process, so it is a precondition here. */
  predicate HasKnownVersion(e: Entry) {
    e.version == 1 || e.version == 2
  }

  /** `torrentKey`: the trie key of an entry. Version 1 keys by the v1
      info-hash; version 2 keys by the 20-byte prefix of the v2 info-hash
      (the truncated form of section "Info Hash" of BEP 52). Dereferencing
      the torrent requires it to be non-null. */
  function TorrentKey(e: Entry): (k: seq<Byte>)
    requires IsSet(e) && HasKnownVersion(e)
    ensures |k| == IndexKeyLength
    ensures e.version == 1 ==> k == e.torrent.value.keyV1
    ensures e.version == 2 ==> k <= e.torrent.value.keyV2
  {
    if e.version == 1 then e.torrent.value.keyV1
    else e.torrent.value.keyV2[..IndexKeyLength]
  }

  /** An entry built from a non-null pointer with the defaulted version is
      truthy, is tagged 1 and is keyed by the torrent's v1 info-hash; the
      no-argument entry and the null entry are both falsy. */
  lemma EntryConstructors(t: Torrent)
    ensures IsSet(MakeEntry(Some(t))) && MakeEntry(Some(t)).version == 1
    ensures TorrentKey(MakeEntry(Some(t))) == t.keyV1
    ensures !IsSet(MakeEntry()) && MakeEntry().version == 1
    ensures !IsSet(NullEntry()) && NullEntry().version == 0
  {
  }

  /** Two version-2 entries share an index key exactly when their v2
      info-hashes agree on the first 20 bytes, whatever their last 12 bytes. */
  lemma V2KeysCollide(e1: Entry, e2: Entry)
    requires IsSet(e1) && IsSet(e2) && e1.version == 2 && e2.version == 2
    ensures TorrentKey(e1) == TorrentKey(e2)
        <==> e1.torrent.value.keyV2[..20] == e2.torrent.value.keyV2[..20]
  {
  }

  /** A version-1 entry and a version-2 entry share an index key exactly when
      the v1 info-hash equals the 20-byte prefix of the v2 info-hash. */
  lemma CrossVersionKeysCollide(e1: Entry, e2: Entry)
    requires IsSet(e1) && IsSet(e2) && e1.version == 1 && e2.version == 2
    ensures TorrentKey(e1) == TorrentKey(e2)
        <==> e1.torrent.value.keyV1 == e2.torrent.value.keyV2[..20]
  {
  }
}
