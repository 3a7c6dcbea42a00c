/** `getSessionId`, the anonymous visitor id both the post card and the
    lightbox keep in browser storage. The clock reading and the random part
    are inputs. */
module SessionIds {
  import opened Text
  import opened Optional

  /** Browser storage: string keys to string values. */
  type Storage = map<string, string>

  const StorageKey: string := "sessionId"

  const Prefix: string := "session_"

  /** `session_<milliseconds>_<random part>`. `suffix` stands for the nine
      base-36 characters cut from `Math.random().toString(36)`. */
  function FreshId(now: nat, suffix: string): (id: string)
    ensures |id| > |Prefix| && id[..|Prefix|] == Prefix
  {
    Prefix + NatToDecimal(now) + "_" + suffix
  }

  /** The clock reading a fresh id was made at: the digits between the
      prefix and the next underscore. */
  function Timestamp(id: string): (t: Option<nat>)
  {
    if |id| < |Prefix| || id[..|Prefix|] != Prefix then None
    else
      var digits := Before(id[|Prefix|..], '_');
      if digits != [] && forall i :: 0 <= i < |digits| ==> IsDigit(digits[i]) then Some(DecimalValue(digits))
      else None
  }

  /** A fresh id gives back the clock reading it was made from. */
  lemma TimestampRoundTrip(now: nat, suffix: string)
    ensures Timestamp(FreshId(now, suffix)) == Some(now)
  {
    var d := NatToDecimal(now);
    var id := FreshId(now, suffix);
    assert id[|Prefix|..] == d + ['_'] + suffix;
    assert '_' !in d by {
      forall i | 0 <= i < |d|
        ensures d[i] != '_'
      {
        assert IsDigit(d[i]);
      }
    }
    BeforeJoined(d, '_', suffix);
    DecimalRoundTrip(now);
  }

  /** The stored id when there is a non-empty one. Otherwise a fresh id,
      which is also written to storage. Returns the id and the storage
      afterwards. */
  function GetSessionId(store: Storage, now: nat, suffix: string): (r: (string, Storage))
    ensures r.0 != [] && StorageKey in r.1 && r.1[StorageKey] == r.0
    ensures forall k :: k != StorageKey ==> (k in r.1 <==> k in store) && (k in store ==> r.1[k] == store[k])
    ensures StorageKey in store && store[StorageKey] != [] ==> r == (store[StorageKey], store)
    ensures !(StorageKey in store && store[StorageKey] != []) ==> r.0 == FreshId(now, suffix)
  {
    if StorageKey in store && store[StorageKey] != [] then (store[StorageKey], store)
    else
      var id := FreshId(now, suffix);
      (id, store[StorageKey := id])
  }

  /** Whatever the clock and the random part say the second time, a second
      call returns the id the first call returned and leaves storage as it
      was. */
  lemma SecondCallSameId(store: Storage, now1: nat, suffix1: string, now2: nat, suffix2: string)
    ensures var first := GetSessionId(store, now1, suffix1);
      GetSessionId(first.1, now2, suffix2) == first
  {
  }
}
