// dht/dht_content.go: what one DHT node stores about the content manifest and how its
// handlers change it.  Each handler is a function on the stored value; class Node holds the
// fields and its methods are proved to perform exactly those functions.
module ContentNode {
  import opened Common
  import opened Manifests

  type Addr = string

  const RELAY_TTL := 120_000_000_000 // two minutes, in nanoseconds

  datatype Content = Content(raw: Bytes, ts: int, complete: bool)

  datatype PeerEntry = PeerEntry(ts: int, complete: bool, lastSeen: int)

  datatype Msg = Have(ts: int, complete: bool) | Want | Data(ts: int, raw: Bytes)

  const NOTHING := Content([], 0, false)

  function SetContent(c: Content, raw: Bytes, ts: int): (r: Content) {
    if ts > c.ts then Content(raw, ts, false) else c
  }

  function SetComplete(c: Content, ts: int, complete: bool): (r: Content) {
    if ts == c.ts then c.(complete := complete) else c
  }

  // The Have sent to every contact on an announce tick; nothing before the first manifest.
  function Announce(c: Content): (m: Option<Msg>) {
    if c.ts == 0 then None else Some(Have(c.ts, c.complete))
  }

  function ReplyToHave(c: Content, ts: int): (m: Option<Msg>) {
    if ts > c.ts then Some(Want) else None
  }

  function ReplyToWant(c: Content): (m: Option<Msg>) {
    if c.raw == [] then None else Some(Data(c.ts, c.raw))
  }

  // The bytes handed to the content handler, when the claimed timestamp looks newer.
  function PassData(c: Content, ts: int, raw: Bytes): (r: Option<Bytes>) {
    if ts <= c.ts then None else Some(raw)
  }

  predicate ListedAt(e: PeerEntry, ts: int, now: int) {
    e.complete && e.ts == ts && e.lastSeen > now - RELAY_TTL
  }

  function PeersFor(entries: map<Addr, PeerEntry>, ts: int, now: int): (r: set<Addr>) {
    set a | a in entries && ListedAt(entries[a], ts, now)
  }

  class Node {
    var contentRaw: Bytes
    var contentTS: int
    var contentComplete: bool
    var entries: map<Addr, PeerEntry>

    function Value(): (c: Content)
      reads this
    {
      Content(contentRaw, contentTS, contentComplete)
    }

    constructor ()
      ensures Value() == NOTHING && entries == map[]
    {
      contentRaw, contentTS, contentComplete, entries := [], 0, false, map[];
    }

    method Set(raw: Bytes, ts: int)
      modifies `contentRaw, `contentTS, `contentComplete
      ensures Value() == SetContent(old(Value()), raw, ts)
    {
      if ts > contentTS {
        contentRaw := raw;
        contentTS := ts;
        contentComplete := false;
      }
    }

    method SetContentComplete(ts: int, complete: bool)
      modifies `contentComplete
      ensures Value() == SetComplete(old(Value()), ts, complete)
    {
      if ts == contentTS {
        contentComplete := complete;
      }
    }

    method GossipContentHave() returns (m: Option<Msg>)
      ensures m == Announce(Value())
    {
      var ts, complete := contentTS, contentComplete;
      if ts == 0 {
        return None;
      }
      m := Some(Have(ts, complete));
    }

    method HandleHave(src: Addr, ts: int, complete: bool, now: int) returns (reply: Option<Msg>)
      modifies `entries
      ensures entries == old(entries)[src := PeerEntry(ts, complete, now)]
      ensures reply == ReplyToHave(Value(), ts)
    {
      entries := entries[src := PeerEntry(ts, complete, now)];
      var ours := contentTS;
      if ts > ours {
        reply := Some(Want);
      } else {
        reply := None;
      }
    }

    method HandleWant() returns (reply: Option<Msg>)
      ensures reply == ReplyToWant(Value())
    {
      var raw, ts := contentRaw, contentTS;
      if |raw| == 0 {
        return None;
      }
      reply := Some(Data(ts, raw));
    }

    method HandleData(ts: int, raw: Bytes) returns (passed: Option<Bytes>)
      ensures passed == PassData(Value(), ts, raw)
    {
      if ts <= contentTS {
        return None;
      }
      passed := Some(raw);
    }

    // peersFor: the scan over the entry map, in any order.
    method CompletePeers(ts: int, now: int) returns (out: seq<Addr>)
      ensures forall a :: a in out <==> a in PeersFor(entries, ts, now)
      ensures forall i, j :: 0 <= i < j < |out| ==> out[i] != out[j]
    {
      out := [];
      var rest := entries.Keys;
      while rest != {}
        invariant rest <= entries.Keys
        invariant forall a :: a in out <==> a in PeersFor(entries, ts, now) && a !in rest
        invariant forall i, j :: 0 <= i < j < |out| ==> out[i] != out[j]
        decreases |rest|
      {
        var a :| a in rest;
        rest := rest - {a};
        var e := entries[a];
        if e.complete && e.ts == ts && e.lastSeen > now - RELAY_TTL {
          out := out + [a];
        }
      }
    }
  }
}
