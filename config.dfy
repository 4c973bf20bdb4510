/** Runtime configuration (src/config.ts) and the limiter flag the dispatcher uses. */
module Config {

  /** Prefixes recognised for text commands, tried in this order. */
  const Prefixes: seq<string> := ["!", "?", "."]

  /** `commandCooldowns.maxAttempts`. */
  const MaxAttempts: int := 5

  /** `commandCooldowns.windowDuration`, in milliseconds. */
  const WindowDuration: int := 10 * 1000

  /**
   * `LimitFlags.Command`. Its defining file is not part of this model; the
   * value below is a stand-in and no proof depends on it.
   */
  const CommandFlag: int := 0
}
