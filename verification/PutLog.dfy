// The specification: a log of puts. An entry is live until `ttl` seconds after its stamp.

module PutLog {
  import opened ByteStrings

  datatype Entry = Entry(ns: Bytes, key: Bytes, stamp: int)

  predicate LiveAt(e: Entry, ttl: int, now: int) {
    e.stamp + ttl > now
  }

  function One(b: bool): nat {
    if b then 1 else 0
  }

  // How many puts to (ns, key) are live at `now`.
  function Count(log: seq<Entry>, ns: Bytes, key: Bytes, ttl: int, now: int): nat {
    if log == [] then 0
    else
      var e := log[|log| - 1];
      Count(log[..|log| - 1], ns, key, ttl, now) + One(e.ns == ns && e.key == key && LiveAt(e, ttl, now))
  }

  // How many puts to any key of `ns` are live at `now`.
  function CountNs(log: seq<Entry>, ns: Bytes, ttl: int, now: int): nat {
    if log == [] then 0
    else
      var e := log[|log| - 1];
      CountNs(log[..|log| - 1], ns, ttl, now) + One(e.ns == ns && LiveAt(e, ttl, now))
  }

  // How many puts are live at `now`.
  function CountAll(log: seq<Entry>, ttl: int, now: int): nat {
    if log == [] then 0
    else
      CountAll(log[..|log| - 1], ttl, now) + One(LiveAt(log[|log| - 1], ttl, now))
  }
}
