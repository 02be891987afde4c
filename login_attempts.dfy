/** The login-attempt tracker as the account service sees it: a cache keyed by
    username, a verdict on whether a username has exceeded the allowed failed
    attempts, and removal of a username's entry. How entries are counted and
    when they expire belong to the tracker and are not modelled: the verdict is
    a function supplied when the tracker is built. */
module LoginAttempts {

  class LoginAttemptService {
    /** The tracker's entry per username (its failure record). */
    var cache: map<string, nat>
    /** The tracker's policy: given its cache, has this username exceeded the
        maximum number of attempts? */
    const exceeded: (map<string, nat>, string) -> bool

    constructor (cache: map<string, nat>, exceeded: (map<string, nat>, string) -> bool)
      ensures this.cache == cache && this.exceeded == exceeded
    {
      this.cache := cache;
      this.exceeded := exceeded;
    }

    /** `hasExceededMaxAttempts`. */
    function HasExceededMaxAttempts(username: string): bool
      reads this
    {
      exceeded(cache, username)
    }

    /** `evictUserFromLoginAttempCache`: drops this username's entry and no other. */
    method EvictUserFromLoginAttemptCache(username: string)
      modifies this
      ensures cache == old(cache) - {username}
      ensures username !in cache
      ensures forall name :: name in old(cache) && name != username ==> name in cache && cache[name] == old(cache)[name]
    {
      cache := cache - {username};
    }
  }
}
