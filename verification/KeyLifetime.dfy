/** Redis keys with a lifetime: set with PX, readable up to and including their last millisecond. */
module KeyLifetime {

  /** `Math.max(1, Math.floor(px))` for whole milliseconds. */
  function AtLeast1(px: int): int { if px < 1 then 1 else px }

  predicate Unexpired(expiresAt: int, now: int) { now <= expiresAt }
}
