/**
 * The single-slot release cache of app.py:35-41 and app.py:62-68: the last
 * public release list and the time it was stored.  It is read while both
 * halves are set and the entry is younger than five minutes, and it is
 * replaced as a whole after each successful fetch (app.py:147-148).
 */
module Cache {
  import opened Wrappers
  import opened Releases

  const CacheDurationMinutes: int := 5

  /** Time to live of the entry, in seconds. */
  const TtlSeconds: int := CacheDurationMinutes * 60

  class ReleaseCache {
    var data: Option<seq<PublicRelease>>
    var timestamp: Option<int>

    /** Both halves start as `None`. */
    constructor ()
      ensures data == None && timestamp == None
    {
      data := None;
      timestamp := None;
    }

    /** `is_cache_valid()`: both halves set and the entry younger than the time to live. */
    predicate IsValid(now: int): (valid: bool)
      reads this
      ensures valid ==> data.Some? && timestamp.Some?
      ensures valid ==> now < timestamp.value + TtlSeconds
    {
      data.Some? && timestamp.Some? && now - timestamp.value < TtlSeconds
    }

    /** The update after a successful fetch: both halves replaced together. */
    method Put(releases: seq<PublicRelease>, now: int)
      modifies this
      ensures data == Some(releases) && timestamp == Some(now)
      ensures IsValid(now)
    {
      data := Some(releases);
      timestamp := Some(now);
    }
  }

  /** An empty or half-filled slot is never served. */
  lemma UnsetSlotInvalid(c: ReleaseCache, now: int)
    requires c.data.None? || c.timestamp.None?
    ensures !c.IsValid(now)
  {
  }

  /** A filled slot is served exactly until it is five minutes old, whatever
      the list it holds (an empty list included). */
  lemma ValidUntilExpiry(c: ReleaseCache, now: int)
    requires c.data.Some? && c.timestamp.Some?
    ensures c.IsValid(now) <==> now < c.timestamp.value + TtlSeconds
  {
  }
}
