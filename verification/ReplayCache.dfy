/** The relay's replay window (`services/onion/OnionReplayCacheV2.js`). */
module ReplayCache {
  import opened Basics
  import Text

  datatype ReplayError = BadPacketId | BadHopIndex | BadKeyId | ReplayDetected

  /** `${packetIdHex}:${hopIndex}:${onionKeyId}` */
  function TripleKey(packetId: string, hopIndex: nat, keyId: string): string {
    packetId + ":" + Text.Decimal(hopIndex) + ":" + keyId
  }

  /** With a packet id free of the separator, as every hexadecimal id is, the key names one triple. */
  lemma TripleKeyInjective(p: string, h: nat, k: string, p': string, h': nat, k': string)
    requires ':' !in p && ':' !in p' && TripleKey(p, h, k) == TripleKey(p', h', k')
    ensures p == p' && h == h' && k == k'
  {
    var d, d' := Text.Decimal(h), Text.Decimal(h');
    assert p + ":" + d + ":" + k == p + [':'] + (d + [':'] + k);
    assert p' + ":" + d' + ":" + k' == p' + [':'] + (d' + [':'] + k');
    Text.SplitUnique(p, d + [':'] + k, p', d' + [':'] + k', ':');
    Text.SplitUnique(d, k, d', k', ':');
    Text.DecimalInjective(h, h');
  }

  function Last(s: seq<string>, n: nat): seq<string> {
    if |s| <= n then s else s[|s| - n..]
  }

  /** One call on a window: refused when the key is in it, else appended and the oldest evicted. */
  function Admit(window: seq<string>, max: nat, key: string): (r: Result<seq<string>, ReplayError>) {
    if key in window then Err(ReplayDetected)
    else var w := window + [key]; Ok(if |w| > max then w[1..] else w)
  }

  datatype History = History(window: seq<string>, accepted: seq<string>)

  /** Any run of calls, remembering every key that was accepted. */
  function RunCalls(max: nat, keys: seq<string>): History {
    if keys == [] then History([], [])
    else
      var h, key := RunCalls(max, keys[..|keys| - 1]), keys[|keys| - 1];
      match Admit(h.window, max, key)
      case Err(_) => h
      case Ok(w) => History(w, h.accepted + [key])
  }

  /** After every run the window is exactly the last `max` accepted keys; so a call is refused
      exactly when its key is among them. */
  lemma {:induction false} WindowIsRecent(max: nat, keys: seq<string>, key: string)
    requires max > 0
    ensures
      var h := RunCalls(max, keys);
      && h.window == Last(h.accepted, max)
      && (Admit(h.window, max, key) == Err(ReplayDetected) <==> key in Last(h.accepted, max))
    decreases |keys|
  {
    if keys != [] {
      WindowIsRecent(max, keys[..|keys| - 1], key);
    }
  }

  class OnionReplayCache {
    const maxEntries: nat
    var keys: seq<string>
    ghost var accepted: seq<string>

    /** The insertion-ordered map holds the most recent accepted keys. */
    ghost predicate Valid()
      reads this
    {
      maxEntries > 0 && keys == Last(accepted, maxEntries)
    }

    constructor (maxEntries: nat)
      requires maxEntries > 0
      ensures Valid() && this.maxEntries == maxEntries && accepted == []
    {
      this.maxEntries := maxEntries;
      keys, accepted := [], [];
    }

    method CheckAndMark(packetId: string, hopIndex: int, keyId: string) returns (r: Result<(), ReplayError>)
      requires Valid()
      modifies this
      ensures Valid()
      ensures packetId == "" ==> r == Err(BadPacketId)
      ensures packetId != "" && hopIndex < 0 ==> r == Err(BadHopIndex)
      ensures packetId != "" && hopIndex >= 0 && keyId == "" ==> r == Err(BadKeyId)
      ensures packetId != "" && hopIndex >= 0 && keyId != "" ==>
                var key := TripleKey(packetId, hopIndex, keyId);
                if key in Last(old(accepted), maxEntries) then r == Err(ReplayDetected)
                else r == Ok(()) && accepted == old(accepted) + [key]
      ensures r.Err? ==> accepted == old(accepted)
    {
      if packetId == "" {
        return Err(BadPacketId);
      }
      if hopIndex < 0 {
        return Err(BadHopIndex);
      }
      if keyId == "" {
        return Err(BadKeyId);
      }
      var key := TripleKey(packetId, hopIndex, keyId);
      if key in keys {
        return Err(ReplayDetected);
      }
      keys := keys + [key];
      if |keys| > maxEntries {
        keys := keys[1..];
      }
      accepted := accepted + [key];
      return Ok(());
    }
  }
}
