/** The waits of lock/lock.go's refreshers: of one to two quarters of the TTL, in whole seconds. */
module Timers {
  import opened UseLocks

  /** TTLs are configured in whole seconds. */
  predicate WholeSeconds(ttl: nat) {
    ttl > 0 && ttl % Second == 0
  }

  function Quarter(ttl: nat): nat { ttl / 4 }

  predicate Jittered(ttl: nat, wait: nat) {
    Quarter(ttl) <= wait < 2 * Quarter(ttl)
  }
}
